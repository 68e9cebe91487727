/** Dyadic block theory: the aligned power-of-two runs of frames that the buddy
    allocator lists, splits and merges.

    A block of order `o` and index `i` is the run of frames
    `[i * 2^o, (i + 1) * 2^o)`, so natural alignment is built into the type.
    Blocks form a forest: any two are nested or disjoint, and a set of pairwise
    disjoint blocks in which no two buddies both appear is determined by the
    frames it covers. */
module Dyadic {

  /** Highest order the allocator keeps. */
  const MAX_ORDER: nat := 12

  function Pow2(k: nat): (p: nat)
    ensures p >= 1
  {
    if k == 0 then 1 else 2 * Pow2(k - 1)
  }

  /** `f` shifted right by `k` bits. */
  function Shr(f: nat, k: nat): nat
  {
    if k == 0 then f else Shr(f / 2, k - 1)
  }

  lemma MulMono(a: nat, b: nat, p: nat)
    requires a <= b
    ensures a * p <= b * p
  {
  }

  lemma MulDouble(a: nat, p: nat)
    ensures a * (2 * p) == 2 * (a * p)
  {
  }

  lemma {:induction false} ShrCompose(f: nat, a: nat, b: nat)
    ensures Shr(Shr(f, a), b) == Shr(f, a + b)
  {
    if a > 0 {
      ShrCompose(f / 2, a - 1, b);
    }
  }

  lemma ShrSucc(f: nat, k: nat)
    ensures Shr(f, k + 1) == Shr(f, k) / 2
  {
    ShrCompose(f, k, 1);
    assert Shr(Shr(f, k), 1) == Shr(Shr(f, k) / 2, 0);
  }

  /** Shifting is integer division by a power of two. */
  lemma {:induction false} ShrBounds(f: nat, k: nat)
    ensures Shr(f, k) * Pow2(k) <= f < (Shr(f, k) + 1) * Pow2(k)
  {
    if k > 0 {
      ShrBounds(f / 2, k - 1);
      var q, p := Shr(f / 2, k - 1), Pow2(k - 1);
      MulDouble(q, p);
      MulDouble(q + 1, p);
    }
  }

  lemma ShrUnique(f: nat, k: nat, i: nat)
    requires i * Pow2(k) <= f < (i + 1) * Pow2(k)
    ensures Shr(f, k) == i
  {
    var q, p := Shr(f, k), Pow2(k);
    ShrBounds(f, k);
    if i < q {
      MulMono(i + 1, q, p);
    } else if q < i {
      MulMono(q + 1, i, p);
    }
  }

  /** The `n` frames from `lo` on. */
  function Interval(lo: nat, n: nat): (s: set<nat>)
    ensures forall f :: f in s <==> lo <= f < lo + n
    ensures |s| == n
  {
    if n == 0 then {} else Interval(lo, n - 1) + {lo + n - 1}
  }

  // ---------------------------------------------------------------- blocks

  datatype Block = Block(order: nat, index: nat)

  ghost predicate Covers(b: Block, f: nat)
  {
    Shr(f, b.order) == b.index
  }

  /** `d` lies inside `b` (or is `b`). */
  ghost predicate Within(d: Block, b: Block)
  {
    d.order <= b.order && Shr(d.index, b.order - d.order) == b.index
  }

  ghost predicate Overlap(b: Block, c: Block)
  {
    Within(b, c) || Within(c, b)
  }

  function First(b: Block): nat
  {
    b.index * Pow2(b.order)
  }

  function Frames(b: Block): set<nat>
  {
    Interval(First(b), Pow2(b.order))
  }

  function Buddy(b: Block): Block
  {
    Block(b.order, if b.index % 2 == 0 then b.index + 1 else b.index - 1)
  }

  function Parent(b: Block): Block
  {
    Block(b.order + 1, b.index / 2)
  }

  function Low(p: Block): Block
    requires p.order > 0
  {
    Block(p.order - 1, 2 * p.index)
  }

  function High(p: Block): Block
    requires p.order > 0
  {
    Block(p.order - 1, 2 * p.index + 1)
  }

  lemma CoversRange(b: Block, f: nat)
    ensures Covers(b, f) <==> First(b) <= f < First(b) + Pow2(b.order)
    ensures Covers(b, f) <==> f in Frames(b)
  {
    var p := Pow2(b.order);
    assert (b.index + 1) * p == b.index * p + p;
    if Covers(b, f) {
      ShrBounds(f, b.order);
    } else if First(b) <= f < First(b) + p {
      ShrUnique(f, b.order, b.index);
    }
  }

  lemma CoversFirst(b: Block)
    ensures Covers(b, First(b))
  {
    CoversRange(b, First(b));
  }

  lemma WithinCovers(d: Block, b: Block, f: nat)
    requires Within(d, b) && Covers(d, f)
    ensures Covers(b, f)
  {
    ShrCompose(f, d.order, b.order - d.order);
  }

  /** Blocks that share a frame are nested. */
  lemma Laminar(b: Block, c: Block, f: nat)
    requires Covers(b, f) && Covers(c, f)
    ensures Overlap(b, c)
    ensures b.order <= c.order ==> Within(b, c)
  {
    if b.order <= c.order {
      ShrCompose(f, b.order, c.order - b.order);
    } else {
      ShrCompose(f, c.order, b.order - c.order);
    }
  }

  lemma WithinTrans(a: Block, b: Block, c: Block)
    requires Within(a, b) && Within(b, c)
    ensures Within(a, c)
  {
    ShrCompose(a.index, b.order - a.order, c.order - b.order);
  }

  lemma ShrZero(k: nat)
    ensures Shr(0, k) == 0
  {
    if k > 0 { ShrZero(k - 1); }
  }

  /** The block holding the zero page is the one with index 0. */
  lemma CoversZero(b: Block)
    ensures Covers(b, 0) <==> b.index == 0
  {
    ShrZero(b.order);
  }

  lemma SplitCovers(p: Block, f: nat)
    requires p.order > 0
    ensures Covers(p, f) <==> Covers(Low(p), f) || Covers(High(p), f)
    ensures !(Covers(Low(p), f) && Covers(High(p), f))
  {
    ShrSucc(f, p.order - 1);
  }

  lemma ParentOfHalves(b: Block)
    ensures {Low(Parent(b)), High(Parent(b))} == {b, Buddy(b)}
    ensures Parent(Buddy(b)) == Parent(b) && Buddy(Buddy(b)) == b != Buddy(b)
  {
    if b.index % 2 == 0 {
      assert Low(Parent(b)) == b && High(Parent(b)) == Buddy(b);
    } else {
      assert High(Parent(b)) == b && Low(Parent(b)) == Buddy(b);
    }
  }

  /** A block that meets a parent meets one of its halves. */
  lemma OverlapParent(c: Block, b: Block)
    requires Overlap(c, Parent(b))
    ensures Overlap(c, b) || Overlap(c, Buddy(b))
  {
    var p := Parent(b);
    var f := if Within(c, p) then First(c) else First(p);
    if Within(c, p) {
      CoversFirst(c);
      WithinCovers(c, p, f);
    } else {
      CoversFirst(p);
      WithinCovers(p, c, f);
    }
    SplitCovers(p, f);
    ParentOfHalves(b);
    assert {Low(p), High(p)} == {b, Buddy(b)};
    assert Low(p) in {b, Buddy(b)} && High(p) in {b, Buddy(b)};
    var h := if Covers(Low(p), f) then Low(p) else High(p);
    Laminar(c, h, f);
  }

  // ------------------------------------------------------- sets of blocks

  ghost predicate Covered(V: set<Block>, f: nat)
  {
    exists b :: b in V && Covers(b, f)
  }

  /** No two listed blocks share a frame. */
  ghost predicate Separate(V: set<Block>)
  {
    forall b, c {:trigger Overlap(b, c)} :: b in V && c in V && b != c ==> !Overlap(b, c)
  }

  /** `p` shares no frame with a listed block. */
  ghost predicate Clear(V: set<Block>, p: Block)
  {
    forall b {:trigger Overlap(b, p)} :: b in V ==> !Overlap(b, p)
  }

  /** Nothing is left to merge. */
  ghost predicate Coalesced(V: set<Block>)
  {
    forall b {:trigger Buddy(b)} :: b in V && b.order < MAX_ORDER ==> Buddy(b) !in V
  }

  ghost predicate Orders(V: set<Block>)
  {
    forall b :: b in V ==> b.order <= MAX_ORDER
  }

  /** Every frame of `d` is free. */
  ghost predicate WhollyCovered(V: set<Block>, d: Block)
  {
    forall f :: Covers(d, f) ==> Covered(V, f)
  }

  lemma ClearNotCovered(V: set<Block>, p: Block, f: nat)
    requires Clear(V, p) && Covers(p, f)
    ensures !Covered(V, f)
  {
    if Covered(V, f) {
      var b :| b in V && Covers(b, f);
      Laminar(b, p, f);
    }
  }

  lemma UncoveredIsClear(V: set<Block>, p: Block)
    requires forall f :: Covers(p, f) ==> !Covered(V, f)
    ensures Clear(V, p)
  {
    forall b | b in V ensures !Overlap(b, p) {
      if Within(b, p) {
        CoversFirst(b);
        WithinCovers(b, p, First(b));
      } else if Within(p, b) {
        CoversFirst(p);
        WithinCovers(p, b, First(p));
      }
    }
  }

  /** In a coalesced listing every wholly free aligned run lies inside a single
      listed block: splitting alone can reach it, no merge is pending. */
  lemma {:induction false} CoalescedAbsorbs(V: set<Block>, d: Block) returns (b: Block)
    requires Coalesced(V) && d.order <= MAX_ORDER && WhollyCovered(V, d)
    ensures b in V && Within(d, b)
    decreases d.order
  {
    CoversFirst(d);
    if d.order == 0 {
      b :| b in V && Covers(b, First(d));
      Laminar(d, b, First(d));
    } else {
      forall f | Covers(Low(d), f) || Covers(High(d), f) ensures Covered(V, f) {
        SplitCovers(d, f);
      }
      var l := CoalescedAbsorbs(V, Low(d));
      b := CoalescedAbsorbs(V, High(d));
      assert Buddy(Low(d)) == High(d);
      if l.order >= d.order {
        b := l;
        CoversFirst(Low(d));
        WithinCovers(Low(d), l, First(Low(d)));
        SplitCovers(d, First(Low(d)));
        Laminar(d, l, First(Low(d)));
      } else if b.order >= d.order {
        CoversFirst(High(d));
        WithinCovers(High(d), b, First(High(d)));
        SplitCovers(d, First(High(d)));
        Laminar(d, b, First(High(d)));
      } else {
        assert false;
      }
    }
  }

  lemma {:induction false} CanonicalSubset(V: set<Block>, W: set<Block>)
    requires Orders(V) && Separate(V) && Coalesced(V)
    requires Orders(W) && Coalesced(W)
    requires forall f :: Covered(V, f) <==> Covered(W, f)
    ensures V <= W
  {
    forall b | b in V ensures b in W {
      assert WhollyCovered(W, b) by {
        forall f | Covers(b, f) ensures Covered(W, f) { assert Covered(V, f); }
      }
      var c := CoalescedAbsorbs(W, b);
      assert WhollyCovered(V, c) by {
        forall f | Covers(c, f) ensures Covered(V, f) { assert Covered(W, f); }
      }
      var d := CoalescedAbsorbs(V, c);
      WithinTrans(b, c, d);
      assert Overlap(b, d);
      assert b == d;
      assert c.order == b.order;
    }
  }

  /** Canonical form: a coalesced listing is determined by its free frames. */
  lemma Canonical(V: set<Block>, W: set<Block>)
    requires Orders(V) && Separate(V) && Coalesced(V)
    requires Orders(W) && Separate(W) && Coalesced(W)
    requires forall f :: Covered(V, f) <==> Covered(W, f)
    ensures V == W
  {
    CanonicalSubset(V, W);
    CanonicalSubset(W, V);
  }

  // ------------------------------------------- one split and one merge step

  lemma Halves(p: Block)
    requires p.order > 0
    ensures Within(Low(p), p) && Within(High(p), p) && !Overlap(Low(p), High(p))
  {
    ShrSucc(Low(p).index, 0);
    ShrSucc(High(p).index, 0);
    assert Shr(Low(p).index, 0) == Low(p).index && Shr(High(p).index, 0) == High(p).index;
  }

  /** Parking the high half of a block that is clear of the listing. */
  lemma ParkHigh(V: set<Block>, p: Block)
    requires p.order > 0 && Orders(V) && p.order <= MAX_ORDER
    requires Separate(V) && Clear(V, p)
    ensures Orders(V + {High(p)}) && Separate(V + {High(p)})
    ensures Clear(V + {High(p)}, Low(p)) && High(p) !in V
    ensures Coalesced(V) ==> Coalesced(V + {High(p)})
    ensures forall f :: Covered(V + {High(p)}, f) <==> Covered(V, f) || Covers(High(p), f)
  {
    var l, h := Low(p), High(p);
    Halves(p);
    ClearWithin(V, p, l);
    ClearWithin(V, p, h);
    ListBlock(V, h);
    assert Buddy(h) == l && Overlap(l, l);
  }

  lemma ClearWithin(V: set<Block>, p: Block, d: Block)
    requires Clear(V, p) && Within(d, p)
    ensures Clear(V, d)
  {
    forall b | b in V ensures !Overlap(b, d) {
      if Overlap(b, d) { OverlapLifts(b, d, p); }
    }
  }

  lemma CoveredAdd(V: set<Block>, p: Block)
    ensures forall f :: Covered(V + {p}, f) <==> Covered(V, f) || Covers(p, f)
  {
    forall f ensures Covered(V + {p}, f) <==> Covered(V, f) || Covers(p, f) {
      if Covered(V, f) {
        var b :| b in V && Covers(b, f);
        assert b in V + {p};
      }
      if Covers(p, f) { assert p in V + {p}; }
    }
  }

  lemma OverlapLifts(b: Block, d: Block, p: Block)
    requires Within(d, p) && Overlap(b, d)
    ensures Overlap(b, p)
  {
    if Within(b, d) {
      WithinTrans(b, d, p);
    } else {
      CoversFirst(d);
      WithinCovers(d, b, First(d));
      WithinCovers(d, p, First(d));
      Laminar(b, p, First(d));
    }
  }

  /** Removing a listed block leaves the rest clear of it. */
  lemma RemoveBlock(V: set<Block>, b: Block)
    requires Separate(V) && b in V
    ensures Separate(V - {b}) && Clear(V - {b}, b)
    ensures Coalesced(V) ==> Coalesced(V - {b})
    ensures forall f :: Covered(V, f) <==> Covered(V - {b}, f) || Covers(b, f)
  {
    assert V - {b} + {b} == V;
    CoveredAdd(V - {b}, b);
  }

  /** Merging `p` with its free buddy: the buddy leaves, the parent is clear. */
  lemma MergeUp(V: set<Block>, p: Block)
    requires Separate(V) && Clear(V, p) && Buddy(p) in V
    ensures Separate(V - {Buddy(p)}) && Clear(V - {Buddy(p)}, Parent(p))
    ensures Coalesced(V) ==> Coalesced(V - {Buddy(p)})
    ensures forall f :: Covered(V, f) || Covers(p, f) <==> Covered(V - {Buddy(p)}, f) || Covers(Parent(p), f)
  {
    var W := V - {Buddy(p)};
    RemoveBlock(V, Buddy(p));
    forall b | b in W ensures !Overlap(b, Parent(p)) {
      if Overlap(b, Parent(p)) { OverlapParent(b, p); }
    }
    forall f ensures Covers(Parent(p), f) <==> Covers(p, f) || Covers(Buddy(p), f) {
      SplitCovers(Parent(p), f);
      ParentOfHalves(p);
      assert p in {Low(Parent(p)), High(Parent(p))} && Buddy(p) in {Low(Parent(p)), High(Parent(p))};
    }
  }

  /** Listing a block that cannot merge further. */
  lemma ListBlock(V: set<Block>, p: Block)
    requires Separate(V) && Clear(V, p)
    ensures Separate(V + {p}) && p !in V
    ensures Coalesced(V) && (p.order >= MAX_ORDER || Buddy(p) !in V) ==> Coalesced(V + {p})
    ensures forall f :: Covered(V + {p}, f) <==> Covered(V, f) || Covers(p, f)
  {
    assert Overlap(p, p);
    forall b, c | b in V + {p} && c in V + {p} && b != c ensures !Overlap(b, c) {
      assert Overlap(b, c) == Overlap(c, b);
    }
    CoveredAdd(V, p);
    forall b | b in V && Buddy(b) == p ensures b == Buddy(p) { ParentOfHalves(b); }
    ParentOfHalves(p);
  }

  // ------------------------------------------------------------- counting

  /** The frames a listing covers. */
  ghost function FrameSet(V: set<Block>): (s: set<nat>)
    ensures forall f: nat :: f in s <==> Covered(V, f)
    decreases |V|
  {
    if V == {} then {}
    else
      var b :| b in V;
      assert forall f: nat :: f in Frames(b) + FrameSet(V - {b}) <==> Covered(V, f) by {
        CoveredAdd(V - {b}, b);
        assert V - {b} + {b} == V;
        forall f: nat ensures f in Frames(b) <==> Covers(b, f) { CoversRange(b, f); }
      }
      Frames(b) + FrameSet(V - {b})
  }

  /** A listing that gained exactly a clear block gained `2^order` frames. */
  lemma CountAdd(V: set<Block>, W: set<Block>, p: Block)
    requires Clear(V, p) && forall f: nat :: Covered(W, f) <==> Covered(V, f) || Covers(p, f)
    ensures |FrameSet(W)| == |FrameSet(V)| + Pow2(p.order)
  {
    var s, t, w := FrameSet(V), Frames(p), FrameSet(W);
    forall f: nat ensures (f in t <==> Covers(p, f)) && (f in t ==> f !in s) {
      CoversRange(p, f);
      if Covers(p, f) { ClearNotCovered(V, p, f); }
    }
    assert w == s + t;
    DisjointUnionSize(s, t);
  }

  lemma DisjointUnionSize(s: set<nat>, t: set<nat>)
    requires forall f :: f in t ==> f !in s
    ensures |s + t| == |s| + |t|
  {
    assert s !! t;
  }
}
