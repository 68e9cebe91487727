/** `activate`: the remainder of the map carved into the largest aligned blocks
    that fit, region by region. */
module Carve {
  import opened Dyadic
  import opened FreeLists
  import opened BootMap

  /** Largest order, from `order` down, whose block fits and is aligned. */
  function PickOrder(start: nat, remaining: nat, order: nat): (o: nat)
    ensures o <= order
    decreases start, order
  {
    if order == 0 || (Bytes(order) <= remaining && start % Bytes(order) == 0) then order
    else PickOrder(start, remaining, order - 1)
  }

  function CarveRange(lists: Lists, start: nat, end: nat): (r: Lists)
    requires |lists| == ORDERS
    ensures |r| == ORDERS
    decreases end - start
  {
    if start + FRAME_SIZE > end then lists
    else
      var o := PickOrder(start, end - start, MAX_ORDER);
      CarveRange(lists[o := lists[o] + [start]], start + Bytes(o), end)
  }

  /** Where region `i`'s carving starts, given the retiring cursor. */
  function CarveStart(r: Region, c: Cursor, i: nat): nat
  {
    var start := Max(RoundUp(r.start), MIN_ADDR);
    if i == c.region then Max(start, RoundUp(c.next)) else start
  }

  function CarveEnd(r: Region): nat
  {
    r.end / FRAME_SIZE * FRAME_SIZE
  }

  /** The free lists after region `i` and all later ones have been carved. */
  function CarveFrom(regions: seq<Region>, c: Cursor, lists: Lists, i: nat): (r: Lists)
    requires |lists| == ORDERS && i <= |regions|
    ensures |r| == ORDERS
    decreases |regions| - i
  {
    if i == |regions| then lists
    else
      var r := regions[i];
      if !r.kind.Usable? || r.end <= r.start || i < c.region then CarveFrom(regions, c, lists, i + 1)
      else CarveFrom(regions, c, CarveRange(lists, CarveStart(r, c, i), CarveEnd(r)), i + 1)
  }

  const EMPTY: Lists := [[], [], [], [], [], [], [], [], [], [], [], [], []]

  /** The free lists `activate` builds when the cursor stands at `c`. */
  function Activate(regions: seq<Region>, c: Cursor): (r: Lists)
    ensures |r| == ORDERS
  {
    CarveFrom(regions, c, EMPTY, 0)
  }

  // ------------------------------------------------------------ arithmetic

  lemma DivUnique(a: nat, p: nat, q: nat, r: nat)
    requires p > 0 && a == q * p + r && r < p
    ensures a / p == q && a % p == r
  {
    var d := a / p;
    assert a == d * p + a % p;
    if d < q {
      MulMono(d + 1, q, p);
      MulStep(d, p);
    } else if q < d {
      MulMono(q + 1, d, p);
      MulStep(q, p);
    }
  }

  lemma ModAligned(o: nat, a: nat)
    ensures a % Bytes(o) == 0 <==> Aligned(o, a)
  {
    var p := Bytes(o);
    if Aligned(o, a) {
      DivUnique(a, p, Shr(a, o + FRAME_BITS), 0);
    }
    if a % p == 0 {
      assert a == (a / p) * p + a % p;
      AddrRoundTrip(Block(o, a / p));
    }
  }

  lemma CoversAddress(b: Block, f: nat)
    ensures Covers(b, f) <==> Addr(b) <= f * FRAME_SIZE < Addr(b) + Bytes(b.order)
  {
    CoversRange(b, f);
    BytesScale(b.order);
    ScaleAssoc(b.index, Pow2(b.order));
  }

  lemma ScaleAssoc(i: nat, p: nat)
    ensures i * (FRAME_SIZE * p) == FRAME_SIZE * (i * p)
  {
  }

  lemma FrameAligned(a: nat)
    ensures a % FRAME_SIZE == 0 <==> Aligned(0, a)
  {
    BytesScale(0);
    ModAligned(0, a);
  }

  lemma BytesAligned(o: nat)
    ensures Bytes(o) % FRAME_SIZE == 0 && Bytes(o) >= FRAME_SIZE
  {
    BytesScale(o);
    DivUnique(Bytes(o), FRAME_SIZE, Pow2(o), 0);
  }

  // ------------------------------------------------------- one region's carve

  ghost predicate Fits(start: nat, remaining: nat, o: nat)
  {
    Bytes(o) <= remaining && Aligned(o, start)
  }

  lemma {:induction false} PickMaximal(start: nat, remaining: nat, order: nat)
    requires Fits(start, remaining, 0)
    ensures Fits(start, remaining, PickOrder(start, remaining, order))
    ensures forall k :: PickOrder(start, remaining, order) < k <= order ==> !Fits(start, remaining, k)
    decreases order
  {
    ModAligned(order, start);
    if order > 0 && !Fits(start, remaining, order) {
      PickMaximal(start, remaining, order - 1);
    }
  }

  /** `b` was carved from `[lo, hi)`: it lies inside, and its right-hand buddy
      would not. */
  ghost predicate Carved(b: Block, lo: nat, hi: nat)
  {
    && lo <= Addr(b) && Addr(b) + Bytes(b.order) <= hi
    && (b.order < MAX_ORDER && b.index % 2 == 0 ==> Addr(b) + 2 * Bytes(b.order) > hi)
  }

  /** The greedy choice: the block at `start`, aligned, inside, maximal. */
  lemma PickCarves(start: nat, end: nat)
    requires start % FRAME_SIZE == 0 && start + FRAME_SIZE <= end
    ensures var o := PickOrder(start, end - start, MAX_ORDER);
            Addr(BlockAt(o, start)) == start && Carved(BlockAt(o, start), start, end)
  {
    FrameAligned(start);
    BytesScale(0);
    PickMaximal(start, end - start, MAX_ORDER);
    var o := PickOrder(start, end - start, MAX_ORDER);
    var b := BlockAt(o, start);
    if o < MAX_ORDER && b.index % 2 == 0 {
      ParentOfHalves(b);
      SplitAddr(Parent(b));
      AddrRoundTrip(Parent(b));
      assert Low(Parent(b)) == b;
      assert !Fits(start, end - start, o + 1);
    }
  }

  /** Frame `f` lies wholly inside `[lo, hi)`. */
  ghost predicate InSpan(f: nat, lo: nat, hi: nat)
  {
    lo <= f * FRAME_SIZE && (f + 1) * FRAME_SIZE <= hi
  }

  lemma ModAdd(a: nat, b: nat)
    requires a % FRAME_SIZE == 0 && b % FRAME_SIZE == 0
    ensures (a + b) % FRAME_SIZE == 0
  {
  }

  lemma SpanSplit(start: nat, bytes: nat, end: nat, f: nat)
    requires start % FRAME_SIZE == 0 && bytes % FRAME_SIZE == 0 && start + bytes <= end
    ensures InSpan(f, start, end) <==> start <= f * FRAME_SIZE < start + bytes || InSpan(f, start + bytes, end)
  {
  }

  lemma CarveFirst(lists: Lists, start: nat, end: nat, b: Block)
    requires Valid(lists) && b.order <= MAX_ORDER
    requires 0 < start == Addr(b) && start % FRAME_SIZE == 0 && Carved(b, start, end)
    requires forall f :: InSpan(f, start, end) ==> !Free(lists, f)
    ensures var next := lists[b.order := lists[b.order] + [start]];
            && Valid(next) && View(next) == View(lists) + {b}
            && (forall f: nat :: Free(next, f) <==> Free(lists, f) || Covers(b, f))
            && (forall f: nat :: Free(next, f) ==> !InSpan(f, start + Bytes(b.order), end))
    ensures forall f: nat :: InSpan(f, start, end) <==> Covers(b, f) || InSpan(f, start + Bytes(b.order), end)
    ensures (start + Bytes(b.order)) % FRAME_SIZE == 0
  {
    BytesAligned(b.order);
    ModAdd(start, Bytes(b.order));
    forall f: nat
      ensures InSpan(f, start, end) <==> Covers(b, f) || InSpan(f, start + Bytes(b.order), end)
      ensures Covers(b, f) ==> !InSpan(f, start + Bytes(b.order), end)
    {
      CoversAddress(b, f);
      SpanSplit(start, Bytes(b.order), end, f);
    }
    UncoveredIsClear(View(lists), b);
    ListBlock(View(lists), b);
    ViewPush(lists, b);
  }

  /** `r` is `lists` plus exactly the whole frames of `[start, end)`, each
      once, in blocks that no neighbour inside the range could have joined. */
  ghost predicate CarvedOnto(lists: Lists, start: nat, end: nat, r: Lists)
  {
    && Valid(r)
    && (forall f: nat :: Free(r, f) <==> Free(lists, f) || InSpan(f, start, end))
    && (forall b :: b in View(r) ==> b in View(lists) || Carved(b, start, end))
  }

  lemma CarveJoin(lists: Lists, start: nat, end: nat, b: Block, next: Lists, r: Lists)
    requires Carved(b, start, end) && View(next) == View(lists) + {b}
    requires forall f: nat :: Free(next, f) <==> Free(lists, f) || Covers(b, f)
    requires forall f: nat :: InSpan(f, start, end) <==> Covers(b, f) || InSpan(f, start + Bytes(b.order), end)
    requires CarvedOnto(next, start + Bytes(b.order), end, r)
    ensures CarvedOnto(lists, start, end, r)
  {
  }

  lemma {:induction false} CarveSpec(lists: Lists, start: nat, end: nat)
    requires Valid(lists) && 0 < start && start % FRAME_SIZE == 0
    requires forall f: nat :: InSpan(f, start, end) ==> !Free(lists, f)
    ensures CarvedOnto(lists, start, end, CarveRange(lists, start, end))
    decreases end - start
  {
    if start + FRAME_SIZE <= end {
      var o := PickOrder(start, end - start, MAX_ORDER);
      var b, next := BlockAt(o, start), lists[o := lists[o] + [start]];
      PickCarves(start, end);
      CarveFirst(lists, start, end, b);
      CarveSpec(next, start + Bytes(o), end);
      CarveJoin(lists, start, end, b, next, CarveRange(next, start + Bytes(o), end));
    } else {
      assert forall f: nat :: !InSpan(f, start, end);
    }
  }

  // ------------------------------------------------------- the whole map

  lemma SpanIsLeft(regions: seq<Region>, c: Cursor, i: nat, f: nat)
    requires c.region <= i < |regions| && regions[i].kind.Usable? && CursorOk(regions, c)
    ensures var r := regions[i];
            && (LeftIn(regions, c, i, f) <==> InSpan(f, CarveStart(r, c, i), CarveEnd(r)))
            && 0 < CarveStart(r, c, i) && CarveStart(r, c, i) % FRAME_SIZE == 0
            && (r.end <= r.start ==> !LeftIn(regions, c, i, f))
  {
  }

  /** Block `b` was carved out of region `i`. */
  ghost predicate Home(regions: seq<Region>, c: Cursor, i: nat, b: Block)
  {
    && c.region <= i < |regions| && regions[i].kind.Usable?
    && Carved(b, CarveStart(regions[i], c, i), CarveEnd(regions[i]))
  }

  ghost predicate LeftFrom(regions: seq<Region>, c: Cursor, i: nat, f: nat)
  {
    exists j :: i <= j && LeftIn(regions, c, j, f)
  }

  /** `r` is `lists` plus exactly the frames left in region `i` and later. */
  ghost predicate ActivatedOnto(regions: seq<Region>, c: Cursor, lists: Lists, i: nat, r: Lists)
  {
    && Valid(r)
    && (forall f: nat :: Free(r, f) <==> Free(lists, f) || LeftFrom(regions, c, i, f))
    && (forall b :: b in View(r) ==> b in View(lists) || exists j :: Home(regions, c, j, b))
  }

  lemma LeftFromStep(regions: seq<Region>, c: Cursor, i: nat, f: nat)
    ensures LeftFrom(regions, c, i, f) <==> LeftIn(regions, c, i, f) || LeftFrom(regions, c, i + 1, f)
  {
    if LeftFrom(regions, c, i, f) {
      var j :| i <= j && LeftIn(regions, c, j, f);
      assert j == i || i + 1 <= j;
    }
  }

  lemma CarveRegion(regions: seq<Region>, c: Cursor, lists: Lists, i: nat)
    requires Disjoint(regions) && CursorOk(regions, c) && Valid(lists)
    requires c.region <= i < |regions| && regions[i].kind.Usable?
    requires forall f: nat :: Free(lists, f) ==> !LeftFrom(regions, c, i, f)
    ensures var next := CarveRange(lists, CarveStart(regions[i], c, i), CarveEnd(regions[i]));
            && Valid(next)
            && (forall f: nat :: Free(next, f) <==> Free(lists, f) || LeftIn(regions, c, i, f))
            && (forall b :: b in View(next) ==> b in View(lists) || Home(regions, c, i, b))
            && (forall f: nat :: Free(next, f) ==> !LeftFrom(regions, c, i + 1, f))
  {
    var start, end := CarveStart(regions[i], c, i), CarveEnd(regions[i]);
    forall f: nat
      ensures LeftIn(regions, c, i, f) <==> InSpan(f, start, end)
      ensures LeftFrom(regions, c, i, f) <==> LeftIn(regions, c, i, f) || LeftFrom(regions, c, i + 1, f)
      ensures LeftIn(regions, c, i, f) ==> !LeftFrom(regions, c, i + 1, f)
    {
      SpanIsLeft(regions, c, i, f);
      LeftFromStep(regions, c, i, f);
      LeftOnce(regions, c, i, f);
    }
    SpanIsLeft(regions, c, i, 0);
    CarveSpec(lists, start, end);
  }

  lemma LeftOnce(regions: seq<Region>, c: Cursor, i: nat, f: nat)
    requires Disjoint(regions)
    ensures LeftIn(regions, c, i, f) ==> !LeftFrom(regions, c, i + 1, f)
  {
    if LeftIn(regions, c, i, f) && LeftFrom(regions, c, i + 1, f) {
      var j :| i + 1 <= j && LeftIn(regions, c, j, f);
      assert LeftIn(regions, START, i, f) && LeftIn(regions, START, j, f);
    }
  }

  lemma {:induction false} CarveFromSpec(regions: seq<Region>, c: Cursor, lists: Lists, i: nat)
    requires Disjoint(regions) && CursorOk(regions, c) && Valid(lists) && i <= |regions|
    requires forall f: nat :: Free(lists, f) ==> !LeftFrom(regions, c, i, f)
    ensures ActivatedOnto(regions, c, lists, i, CarveFrom(regions, c, lists, i))
    decreases |regions| - i
  {
    if i < |regions| {
      var r := regions[i];
      if !r.kind.Usable? || r.end <= r.start || i < c.region {
        forall f: nat ensures !LeftIn(regions, c, i, f) {
          if c.region <= i && r.kind.Usable? { SpanIsLeft(regions, c, i, f); }
        }
        CarveSkip(regions, c, i);
        CarveFromSpec(regions, c, lists, i + 1);
      } else {
        var next := CarveRange(lists, CarveStart(r, c, i), CarveEnd(r));
        CarveRegion(regions, c, lists, i);
        CarveFromSpec(regions, c, next, i + 1);
        ActivateJoin(regions, c, lists, i, next, CarveFrom(regions, c, next, i + 1));
      }
    }
  }

  lemma CarveSkip(regions: seq<Region>, c: Cursor, i: nat)
    requires forall f: nat :: !LeftIn(regions, c, i, f)
    ensures forall f: nat :: LeftFrom(regions, c, i, f) <==> LeftFrom(regions, c, i + 1, f)
  {
    forall f: nat ensures LeftFrom(regions, c, i, f) <==> LeftFrom(regions, c, i + 1, f) {
      LeftFromStep(regions, c, i, f);
    }
  }

  lemma ActivateJoin(regions: seq<Region>, c: Cursor, lists: Lists, i: nat, next: Lists, r: Lists)
    requires forall f: nat :: Free(next, f) <==> Free(lists, f) || LeftIn(regions, c, i, f)
    requires forall b :: b in View(next) ==> b in View(lists) || Home(regions, c, i, b)
    requires ActivatedOnto(regions, c, next, i + 1, r)
    ensures ActivatedOnto(regions, c, lists, i, r)
  {
    forall f: nat ensures Free(r, f) <==> Free(lists, f) || LeftFrom(regions, c, i, f) {
      LeftFromStep(regions, c, i, f);
    }
  }

  /** Two-phase conservation: whatever the cursor handed out, `activate` lists
      exactly the whole usable frames it did not, each once. */
  lemma ActivateSpec(regions: seq<Region>, c: Cursor)
    requires Disjoint(regions) && CursorOk(regions, c)
    ensures Valid(Activate(regions, c))
    ensures forall f: nat :: Free(Activate(regions, c), f) <==> f in Remaining(regions, c)
    ensures forall b :: b in View(Activate(regions, c)) ==> exists j :: Home(regions, c, j, b)
  {
    ViewEmpty(EMPTY);
    CarveFromSpec(regions, c, EMPTY, 0);
    forall f: nat ensures LeftFrom(regions, c, 0, f) <==> f in Remaining(regions, c) {
      RemainingMembers(regions, c, f);
    }
  }

  // ------------------------------------------- when the carving is coalesced

  /** Every wholly left aligned run of at most `2^12` frames lies in one
      region. */
  ghost predicate NoStraddle(regions: seq<Region>, c: Cursor)
  {
    forall d: Block :: d.order <= MAX_ORDER && WhollyLeft(regions, c, d) ==> exists i :: RunIn(regions, c, i, d)
  }

  ghost predicate WhollyLeft(regions: seq<Region>, c: Cursor, d: Block)
  {
    forall f: nat :: Covers(d, f) ==> f in Remaining(regions, c)
  }

  ghost predicate RunIn(regions: seq<Region>, c: Cursor, i: nat, d: Block)
  {
    forall f: nat :: Covers(d, f) ==> LeftIn(regions, c, i, f)
  }

  lemma HomeRun(regions: seq<Region>, c: Cursor, i: nat, b: Block)
    requires CursorOk(regions, c) && Home(regions, c, i, b)
    ensures RunIn(regions, c, i, b)
  {
    forall f: nat | Covers(b, f) ensures LeftIn(regions, c, i, f) {
      CoversAddress(b, f);
      BytesAligned(b.order);
      SpanIsLeft(regions, c, i, f);
      AddrAligned(b);
      FrameInside(f, Addr(b), Bytes(b.order));
    }
  }

  lemma AddrAligned(b: Block)
    ensures Addr(b) % FRAME_SIZE == 0
  {
    BytesScale(b.order);
    ScaleAssoc(b.index, Pow2(b.order));
    DivUnique(Addr(b), FRAME_SIZE, b.index * Pow2(b.order), 0);
  }

  lemma FrameInside(f: nat, a: nat, n: nat)
    requires a % FRAME_SIZE == 0 && n % FRAME_SIZE == 0 && a <= f * FRAME_SIZE < a + n
    ensures (f + 1) * FRAME_SIZE <= a + n
  {
  }

  lemma WithinRun(regions: seq<Region>, c: Cursor, i: nat, d: Block, b: Block)
    requires Within(d, b) && RunIn(regions, c, i, b)
    ensures RunIn(regions, c, i, d)
  {
    forall f: nat | Covers(d, f) ensures LeftIn(regions, c, i, f) { WithinCovers(d, b, f); }
  }

  /** Two carved buddies cannot come from one region. */
  lemma BuddiesSplit(regions: seq<Region>, c: Cursor, i: nat, j: nat, b: Block)
    requires Disjoint(regions) && CursorOk(regions, c)
    requires b.order < MAX_ORDER && b.index % 2 == 0 && Home(regions, c, i, b)
    ensures !RunIn(regions, c, j, Parent(b))
  {
    var g := ParentEnd(b);
    var f := First(b);
    SpanIsLeft(regions, c, i, g);
    assert !LeftIn(regions, c, i, g);
    CoversFirst(b);
    WithinCovers(b, Parent(b), f);
    HomeRun(regions, c, i, b);
    if LeftIn(regions, c, j, f) { SameRegion(regions, c, i, j, f); }
  }

  lemma ParentEnd(b: Block) returns (g: nat)
    requires b.index % 2 == 0
    ensures Covers(Parent(b), g) && (g + 1) * FRAME_SIZE == Addr(b) + 2 * Bytes(b.order)
  {
    var p := Parent(b);
    assert Low(p) == b;
    SplitAddr(p);
    g := First(p) + Pow2(p.order) - 1;
    CoversRange(p, g);
    LastFrame(p, g);
  }

  lemma SameRegion(regions: seq<Region>, c: Cursor, i: nat, j: nat, f: nat)
    requires Disjoint(regions) && LeftIn(regions, c, i, f) && LeftIn(regions, c, j, f)
    ensures i == j
  {
    assert LeftIn(regions, START, i, f) && LeftIn(regions, START, j, f);
  }

  lemma LastFrame(p: Block, g: nat)
    requires g == First(p) + Pow2(p.order) - 1
    ensures (g + 1) * FRAME_SIZE == Addr(p) + Bytes(p.order)
  {
    BytesScale(p.order);
    ScaleAssoc(p.index, Pow2(p.order));
  }

  /** `activate` leaves nothing to merge exactly when no aligned run straddles
      a boundary between usable regions. */
  lemma ActivateCoalescedIff(regions: seq<Region>, c: Cursor)
    requires Disjoint(regions) && CursorOk(regions, c)
    ensures Coalesced(View(Activate(regions, c))) <==> NoStraddle(regions, c)
  {
    ActivateSpec(regions, c);
    if Coalesced(View(Activate(regions, c))) { CoalescedNoStraddle(regions, c); }
    if NoStraddle(regions, c) { NoStraddleCoalesced(regions, c); }
  }

  lemma CoalescedNoStraddle(regions: seq<Region>, c: Cursor)
    requires Disjoint(regions) && CursorOk(regions, c)
    requires Coalesced(View(Activate(regions, c)))
    ensures NoStraddle(regions, c)
  {
    var V := View(Activate(regions, c));
    ActivateSpec(regions, c);
    forall d: Block | d.order <= MAX_ORDER && WhollyLeft(regions, c, d) ensures exists i :: RunIn(regions, c, i, d) {
      forall f: nat | Covers(d, f) ensures Covered(V, f) { assert Free(Activate(regions, c), f); }
      var b := CoalescedAbsorbs(V, d);
      var i :| Home(regions, c, i, b);
      HomeRun(regions, c, i, b);
      WithinRun(regions, c, i, d, b);
    }
  }

  lemma NoStraddleCoalesced(regions: seq<Region>, c: Cursor)
    requires Disjoint(regions) && CursorOk(regions, c) && NoStraddle(regions, c)
    ensures Coalesced(View(Activate(regions, c)))
  {
    var V := View(Activate(regions, c));
    ActivateSpec(regions, c);
    forall b | b in V && b.order < MAX_ORDER && Buddy(b) in V ensures false {
      ParentOfHalves(b);
      var e := if b.index % 2 == 0 then b else Buddy(b);
      assert e in V && Buddy(e) in V && Low(Parent(e)) == e && High(Parent(e)) == Buddy(e);
      forall f: nat | Covers(Parent(e), f) ensures f in Remaining(regions, c) {
        SplitCovers(Parent(e), f);
        assert Free(Activate(regions, c), f);
      }
      assert WhollyLeft(regions, c, Parent(e));
      var j :| RunIn(regions, c, j, Parent(e));
      var i :| Home(regions, c, i, e);
      BuddiesSplit(regions, c, i, j, e);
    }
  }

  /** No usable region ends, in whole frames, where another begins. */
  ghost predicate NotTouching(regions: seq<Region>)
  {
    forall i, j :: 0 <= i < |regions| && 0 <= j < |regions| && HasFrames(regions[i]) && HasFrames(regions[j]) ==>
      Hi(regions[i]) != Lo(regions[j])
  }

  predicate HasFrames(r: Region)
  {
    r.kind.Usable? && Lo(r) < Hi(r)
  }

  /** Regions that do not touch are never straddled. */
  lemma NotTouchingNoStraddle(regions: seq<Region>, c: Cursor)
    requires Disjoint(regions) && NotTouching(regions)
    ensures NoStraddle(regions, c)
  {
    forall d: Block | d.order <= MAX_ORDER && WhollyLeft(regions, c, d) ensures exists i :: RunIn(regions, c, i, d) {
      CoversFirst(d);
      RemainingMembers(regions, c, First(d));
      var i: nat :| LeftIn(regions, c, i, First(d));
      forall f: nat | Covers(d, f) ensures LeftIn(regions, c, i, f) {
        CoversRange(d, f);
        if f >= Hi(regions[i]) {
          var h := Hi(regions[i]);
          CoversRange(d, h);
          RemainingMembers(regions, c, h);
          var j: nat :| LeftIn(regions, c, j, h);
          BoundaryShared(regions, c, i, j, h);
        }
      }
      assert RunIn(regions, c, i, d);
    }
  }

  lemma BoundaryShared(regions: seq<Region>, c: Cursor, i: nat, j: nat, h: nat)
    requires Disjoint(regions) && NotTouching(regions)
    requires h > 0 && LeftIn(regions, c, i, h - 1) && h == Hi(regions[i])
    ensures !LeftIn(regions, c, j, h)
  {
    if LeftIn(regions, c, j, h) {
      assert LeftIn(regions, START, j, h) && LeftIn(regions, START, i, h - 1);
      assert LeftIn(regions, START, j, h - 1);
    }
  }
}
