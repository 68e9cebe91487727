/** The two frame allocators as the kernel runs them: mutable objects over the
    firmware map. */
module Allocators {
  import opened Common
  import opened Dyadic
  import opened FreeLists
  import opened BootMap
  import opened Carve

  /** The reclaiming allocator: a cursor until `Activate`, free lists after. */
  class BuddyFrameAllocator {
    const regions: seq<Region>
    var regionIdx: nat
    var nextAddr: nat
    var active: bool
    var freeLists: Lists
    var handedOut: nat

    ghost predicate WellFormed()
      reads this
    {
      if active then Valid(freeLists)
      else MapOk(regions) && Disjoint(regions) && CursorOk(regions, Position()) && freeLists == EMPTY
    }

    ghost function Position(): Cursor
      reads this
    {
      Cursor(regionIdx, nextAddr)
    }

    /** The frames still to be handed out, in either phase. */
    ghost function Available(): set<nat>
      reads this
    {
      if active then FreeSet(freeLists) else ToSet(Remaining(regions, Position()))
    }

    constructor (regions: seq<Region>)
      requires MapOk(regions) && Disjoint(regions)
      ensures WellFormed() && !active && this.regions == regions
      ensures Position() == START && handedOut == 0
    {
      this.regions := regions;
      regionIdx := 0;
      nextAddr := 0;
      active := false;
      freeLists := EMPTY;
      handedOut := 0;
    }

    /** Retire the cursor and list every frame it did not hand out. */
    method Activate()
      requires WellFormed() && !active
      modifies this
      ensures WellFormed() && active
      ensures freeLists == Carve.Activate(regions, old(Position()))
      ensures Available() == old(Available())
      ensures regionIdx == |regions| && nextAddr == U64_MAX && handedOut == old(handedOut)
    {
      ghost var c := Position();
      var lists := freeLists;
      for i := 0 to |regions|
        invariant |lists| == ORDERS
        invariant CarveFrom(regions, c, lists, i) == Carve.Activate(regions, c)
        invariant Position() == c && !active && handedOut == old(handedOut)
      {
        var r := regions[i];
        if r.kind != Usable { continue; }
        if r.end <= r.start { continue; }
        var start := Max(RoundUp(r.start), MIN_ADDR);
        if i == regionIdx {
          start := Max(start, RoundUp(nextAddr));
        } else if i < regionIdx {
          continue;
        }
        var end := r.end / FRAME_SIZE * FRAME_SIZE;
        lists := CarveLoop(lists, start, end);
      }
      ActivateSpec(regions, c);
      assert Carve.Activate(regions, c) == lists;
      freeLists := lists;
      regionIdx, nextAddr, active := |regions|, U64_MAX, true;
      assert forall f: nat :: f in FreeSet(freeLists) <==> f in Remaining(regions, c) by {
        forall f: nat ensures f in FreeSet(freeLists) <==> f in Remaining(regions, c) {
          assert Free(freeLists, f) <==> f in Remaining(regions, c);
        }
      }
    }

    /** One region's carve loop: no address it forms passes 64 bits. */
    static method CarveLoop(from: Lists, first: nat, end: nat) returns (lists: Lists)
      requires |from| == ORDERS && first <= PHYS_LIMIT + FRAME_SIZE && end <= PHYS_LIMIT
      ensures lists == CarveRange(from, first, end)
    {
      lists := from;
      var start := first;
      BytesScale(0);
      while start + FRAME_SIZE <= end
        invariant |lists| == ORDERS && start <= Max(first, end) && start + FRAME_SIZE <= U64_MAX
        invariant CarveRange(lists, start, end) == CarveRange(from, first, end)
        decreases end - start
      {
        var remaining := end - start;
        var order: nat := MAX_ORDER;
        while !(Bytes(order) <= remaining && start % Bytes(order) == 0) && order != 0
          invariant order <= MAX_ORDER
          invariant PickOrder(start, remaining, order) == PickOrder(start, remaining, MAX_ORDER)
        {
          order := order - 1;
        }
        lists := lists[order := lists[order] + [start]];
        start := start + Bytes(order);
      }
    }

    /** Bring-up hand-off: one frame from the cursor. */
    method BumpOne() returns (r: Option<nat>)
      modifies this`regionIdx, this`nextAddr
      ensures Bumped(r, Position()) == BumpNext(regions, old(Position()))
    {
      while true
        invariant BumpNext(regions, Position()) == BumpNext(regions, old(Position()))
        decreases |regions| - regionIdx
      {
        if regionIdx >= |regions| { return None; }
        var region := regions[regionIdx];
        if region.kind != Usable {
          regionIdx, nextAddr := regionIdx + 1, 0;
          continue;
        }
        var aligned := RoundUp(region.start);
        if aligned > U64_MAX {
          regionIdx, nextAddr := regionIdx + 1, 0;
          continue;
        }
        var addr := Max(Max(aligned, nextAddr), MIN_ADDR);
        var frameEnd := addr + FRAME_SIZE;
        if frameEnd > U64_MAX { return None; }
        if frameEnd > region.end {
          regionIdx, nextAddr := regionIdx + 1, 0;
          continue;
        }
        nextAddr := frameEnd;
        return Some(addr);
      }
    }

    method FreeFrames() returns (n: nat)
      ensures n == CountFrom(freeLists, 0)
      ensures Valid(freeLists) ==> n == |FreeSet(freeLists)|
    {
      n := 0;
      for order := 0 to |freeLists|
        invariant n + CountFrom(freeLists, order) == CountFrom(freeLists, 0)
      {
        n := n + |freeLists[order]| * Pow2(order);
      }
      if Valid(freeLists) { CountIsFree(freeLists); }
    }

    /** A block of the order asked for; the high halves split off on the way
        down stay listed. */
    method TakeBlock(order: nat) returns (r: Option<nat>)
      requires |freeLists| == ORDERS
      modifies this`freeLists
      ensures |freeLists| == ORDERS && Taken(r, freeLists) == Take(old(freeLists), order)
      decreases ORDERS - order
    {
      if order > MAX_ORDER { return None; }
      var n := |freeLists[order]|;
      if n > 0 {
        r := Some(freeLists[order][n - 1]);
        freeLists := freeLists[order := freeLists[order][..n - 1]];
        return;
      }
      var higher := TakeBlock(order + 1);
      if higher.None? { return None; }
      freeLists := freeLists[order := freeLists[order] + [higher.value + Bytes(order)]];
      return higher;
    }

    /** Hand out one frame: one available frame leaves, and a refusal means
        none was available. */
    method AllocateFrame() returns (r: Option<nat>)
      requires WellFormed()
      modifies this
      ensures WellFormed() && active == old(active)
      ensures active ==> Taken(r, freeLists) == Take(old(freeLists), 0) && Position() == old(Position())
      ensures !active ==> Bumped(r, Position()) == BumpNext(regions, old(Position())) && freeLists == old(freeLists)
      ensures FrameLeaves(old(Available()), r, Available())
      ensures Coalesced(View(old(freeLists))) ==> Coalesced(View(freeLists))
      ensures handedOut == old(handedOut) + if r.Some? then 1 else 0
    {
      ghost var c := Position();
      if active {
        TakeLeaves(freeLists);
        r := TakeBlock(0);
      } else {
        BumpLeaves(regions, c);
        r := BumpOne();
      }
      if r.None? { return; }
      handedOut := handedOut + 1;
    }

    /** Return one frame (by number), merging as far as buddies are free. The
        lists stay sound exactly when the frame was not free already. */
    method DeallocateFrame(frame: nat)
      requires active && |freeLists| == ORDERS && frame != 0
      modifies this`freeLists, this`handedOut
      ensures |freeLists| == ORDERS && freeLists == Merge(old(freeLists), 0, frame * FRAME_SIZE)
      ensures Valid(old(freeLists)) ==> Returned(old(freeLists), frame, freeLists)
      ensures handedOut == if old(handedOut) == 0 then 0 else old(handedOut) - 1
    {
      if Valid(freeLists) { MergeReturns(freeLists, frame); }
      MergeBlock(frame * FRAME_SIZE);
      handedOut := if handedOut == 0 then 0 else handedOut - 1;
    }

    method MergeBlock(frame: nat)
      requires |freeLists| == ORDERS
      modifies this`freeLists
      ensures |freeLists| == ORDERS && freeLists == Merge(old(freeLists), 0, frame)
    {
      var addr, order := frame, 0;
      while true
        invariant order <= MAX_ORDER && |freeLists| == ORDERS
        invariant Merge(freeLists, order, addr) == Merge(old(freeLists), 0, frame)
        decreases ORDERS - order
      {
        if order == MAX_ORDER {
          freeLists := freeLists[order := freeLists[order] + [addr]];
          return;
        }
        var buddy := FlipBit(addr, order + FRAME_BITS);
        if buddy in freeLists[order] {
          var pos := IndexOf(freeLists[order], buddy);
          freeLists := freeLists[order := SwapRemove(freeLists[order], pos)];
          addr := if addr <= buddy then addr else buddy;
          order := order + 1;
        } else {
          freeLists := freeLists[order := freeLists[order] + [addr]];
          return;
        }
      }
    }
  }

  /** One available frame, never the zero page, was handed out; a refusal
      means none was available. */
  ghost predicate FrameLeaves(before: set<nat>, r: Option<nat>, after: set<nat>)
  {
    match r
    case None => before == {} && after == {}
    case Some(a) =>
      && a % FRAME_SIZE == 0 && a >= MIN_ADDR
      && a / FRAME_SIZE in before && after == before - {a / FRAME_SIZE}
  }

  lemma TakeLeaves(lists: Lists)
    requires Valid(lists)
    ensures FrameLeaves(FreeSet(lists), Take(lists, 0).addr, FreeSet(Take(lists, 0).lists))
    ensures Valid(Take(lists, 0).lists)
    ensures Coalesced(View(lists)) ==> Coalesced(View(Take(lists, 0).lists))
  {
    TakeFrame(lists);
    if Take(lists, 0).addr.Some? { NoZeroFrame(lists, Take(lists, 0).addr.value / FRAME_SIZE); }
  }

  lemma NoZeroFrame(lists: Lists, f: nat)
    requires Valid(lists) && f in FreeSet(lists)
    ensures f != 0
  {
    var b :| b in View(lists) && Covers(b, f);
    CoversZero(b);
  }

  lemma BumpLeaves(regions: seq<Region>, c: Cursor)
    requires MapOk(regions) && Disjoint(regions) && CursorOk(regions, c)
    ensures var b := BumpNext(regions, c);
            && FrameLeaves(ToSet(Remaining(regions, c)), b.addr, ToSet(Remaining(regions, b.cursor)))
            && CursorOk(regions, b.cursor)
  {
    BumpSpec(regions, c);
    RemainingDistinct(regions, c);
    var b := BumpNext(regions, c);
    if b.addr.Some? {
      var f := b.addr.value / FRAME_SIZE;
      assert Remaining(regions, c)[0] == f;
      PrefixDistinct([f], Remaining(regions, b.cursor));
    }
  }

  /** The bring-up allocator that never reclaims. */
  class BootFrameAllocator {
    const regions: seq<Region>
    var regionIdx: nat
    var nextAddr: nat

    ghost function Position(): Cursor
      reads this
    {
      Cursor(regionIdx, nextAddr)
    }

    constructor (regions: seq<Region>)
      ensures this.regions == regions && Position() == START
    {
      this.regions := regions;
      regionIdx := 0;
      nextAddr := 0;
    }

    method Advance()
      modifies this
      ensures Position() == Cursor(old(regionIdx) + 1, 0)
    {
      regionIdx := regionIdx + 1;
      nextAddr := 0;
    }

    /** The twin of `BuddyFrameAllocator.BumpOne`, on every map. */
    method AllocateFrame() returns (r: Option<nat>)
      modifies this
      ensures Bumped(r, Position()) == BumpNext(regions, old(Position()))
    {
      while true
        invariant BumpNext(regions, Position()) == BumpNext(regions, old(Position()))
        decreases |regions| - regionIdx
      {
        if regionIdx >= |regions| { return None; }
        var region := regions[regionIdx];
        if region.kind != Usable {
          Advance();
          continue;
        }
        var aligned := RoundUp(region.start);
        if aligned > U64_MAX {
          Advance();
          continue;
        }
        var addr := Max(Max(aligned, nextAddr), MIN_ADDR);
        if addr + FRAME_SIZE > U64_MAX { return None; }
        if addr + FRAME_SIZE > region.end {
          Advance();
          continue;
        }
        nextAddr := addr + FRAME_SIZE;
        return Some(addr);
      }
    }
  }
}
