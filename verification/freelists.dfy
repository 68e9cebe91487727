/** The allocator's free lists: thirteen vectors of block base addresses.

    `Take` and `Merge` give the exact contents of the vectors after
    `take_block` and `deallocate_frame`; the lemmas below say what they mean
    for the set of blocks listed and the set of frames free. */
module FreeLists {
  import opened Common
  import opened Dyadic

  const ORDERS: nat := MAX_ORDER + 1

  /** `log2` of the frame size (4 KiB). */
  const FRAME_BITS: nat := 12

  const FRAME_SIZE: nat := 4096

  type Lists = seq<seq<nat>>

  datatype Taken = Taken(addr: Option<nat>, lists: Lists)

  /** Bytes in a block: the source's `1u64 << (order + 12)`. */
  function Bytes(order: nat): nat
  {
    Pow2(order + FRAME_BITS)
  }

  /** Base address of a block. */
  function Addr(b: Block): nat
  {
    b.index * Bytes(b.order)
  }

  /** The block of order `o` holding address `a`. */
  function BlockAt(o: nat, a: nat): Block
  {
    Block(o, Shr(a, o + FRAME_BITS))
  }

  ghost predicate Aligned(o: nat, a: nat)
  {
    Addr(BlockAt(o, a)) == a
  }

  /** `a ^ (1 << k)`: the single-bit exclusive or that finds a buddy. */
  function FlipBit(a: nat, k: nat): nat
  {
    if Shr(a, k) % 2 == 0 then a + Pow2(k)
    else
      assert a >= Pow2(k) by {
        ShrBounds(a, k);
        MulMono(1, Shr(a, k), Pow2(k));
      }
      a - Pow2(k)
  }

  // ------------------------------------------------------- vector operations

  ghost predicate NoDup(s: seq<nat>)
  {
    forall i, j :: 0 <= i < j < |s| ==> s[i] != s[j]
  }

  function IndexOf(s: seq<nat>, x: nat): (k: nat)
    requires x in s
    ensures k < |s| && s[k] == x && x !in s[..k]
  {
    if s[0] == x then 0 else 1 + IndexOf(s[1..], x)
  }

  /** `Vec::swap_remove`: the last element takes the removed one's place. */
  function SwapRemove(s: seq<nat>, k: nat): seq<nat>
    requires k < |s|
  {
    if k == |s| - 1 then s[..k] else s[..|s| - 1][k := s[|s| - 1]]
  }

  lemma SwapRemoveContents(s: seq<nat>, k: nat)
    requires k < |s| && NoDup(s)
    ensures NoDup(SwapRemove(s, k))
    ensures forall x :: x in SwapRemove(s, k) <==> x in s && x != s[k]
  {
    var r := SwapRemove(s, k);
    forall x ensures x in r <==> x in s && x != s[k] {
      if x in s && x != s[k] {
        var j :| 0 <= j < |s| && s[j] == x;
        assert r[if j == |s| - 1 then k else j] == x;
      }
    }
  }

  // --------------------------------------------- the operations on the lists

  /** `take_block`: pop from order `o`, or split a block of the next order. */
  function Take(lists: Lists, o: nat): (r: Taken)
    requires |lists| == ORDERS
    ensures |r.lists| == ORDERS
    decreases |lists|, ORDERS - o
  {
    if o > MAX_ORDER then Taken(None, lists)
    else if lists[o] != [] then
      var n := |lists[o]| - 1;
      Taken(Some(lists[o][n]), lists[o := lists[o][..n]])
    else
      var up := Take(lists, o + 1);
      match up.addr
      case None => up
      case Some(h) => Taken(Some(h), up.lists[o := up.lists[o] + [h + Bytes(o)]])
  }

  /** `deallocate_frame`: merge with the buddy while it is free, then list. */
  function Merge(lists: Lists, o: nat, a: nat): (r: Lists)
    requires |lists| == ORDERS && o <= MAX_ORDER
    ensures |r| == ORDERS
    decreases |lists|, ORDERS - o
  {
    var buddy := FlipBit(a, o + FRAME_BITS);
    if o < MAX_ORDER && buddy in lists[o] then
      var rest := SwapRemove(lists[o], IndexOf(lists[o], buddy));
      Merge(lists[o := rest], o + 1, if a <= buddy then a else buddy)
    else
      lists[o := lists[o] + [a]]
  }

  /** `free_frames`, from list `o` upward. */
  function CountFrom(lists: Lists, o: nat): nat
    decreases |lists| - o
  {
    if o >= |lists| then 0 else |lists[o]| * Pow2(o) + CountFrom(lists, o + 1)
  }

  // ---------------------------------------------------------- what they mean

  /** The blocks listed. */
  ghost function View(lists: Lists): set<Block>
  {
    ViewTo(lists, |lists|)
  }

  ghost function ViewTo(lists: Lists, n: nat): set<Block>
    requires n <= |lists|
  {
    if n == 0 then {}
    else ViewTo(lists, n - 1) + BlocksOf(n - 1, lists[n - 1])
  }

  ghost function BlocksOf(o: nat, s: seq<nat>): set<Block>
  {
    set a | a in s :: BlockAt(o, a)
  }

  lemma {:induction false} ViewToMember(lists: Lists, n: nat, b: Block)
    requires n <= |lists|
    ensures b in ViewTo(lists, n) <==> b.order < n && exists a :: a in lists[b.order] && BlockAt(b.order, a) == b
  {
    if n > 0 { ViewToMember(lists, n - 1, b); }
  }

  /** Every entry is aligned to its order's size and no list repeats one. */
  ghost predicate Tidy(lists: Lists)
  {
    && |lists| == ORDERS
    && (forall o, k :: 0 <= o < ORDERS && 0 <= k < |lists[o]| ==> Aligned(o, lists[o][k]))
    && (forall o :: 0 <= o < ORDERS ==> NoDup(lists[o]))
  }

  ghost predicate NoZeroPage(V: set<Block>)
  {
    forall b :: b in V ==> b.index != 0
  }

  /** Aligned, duplicate-free, pairwise disjoint, never the zero page. */
  ghost predicate Valid(lists: Lists)
  {
    Tidy(lists) && Separate(View(lists)) && NoZeroPage(View(lists))
  }

  ghost predicate Free(lists: Lists, f: nat)
  {
    Covered(View(lists), f)
  }

  ghost function FreeSet(lists: Lists): set<nat>
  {
    FrameSet(View(lists))
  }

  // -------------------------------------------------------- address lemmas

  lemma AddrRoundTrip(b: Block)
    ensures BlockAt(b.order, Addr(b)) == b && Aligned(b.order, Addr(b))
  {
    var p := Bytes(b.order);
    assert (b.index + 1) * p == b.index * p + p;
    ShrUnique(Addr(b), b.order + FRAME_BITS, b.index);
  }

  lemma {:induction false} BytesScale(o: nat)
    ensures Bytes(o) == FRAME_SIZE * Pow2(o)
  {
    if o == 0 {
      assert Pow2(4) == 16;
      assert Pow2(8) == 256;
      assert Pow2(12) == 4096;
    } else {
      BytesScale(o - 1);
    }
  }

  lemma SplitAddr(p: Block)
    requires p.order > 0
    ensures Addr(Low(p)) == Addr(p) && Addr(High(p)) == Addr(p) + Bytes(p.order - 1)
  {
    var h := Bytes(p.order - 1);
    assert Bytes(p.order) == 2 * h;
    MulDouble(p.index, h);
    assert (2 * p.index) * h == 2 * (p.index * h) && (2 * p.index + 1) * h == (2 * p.index) * h + h;
  }

  /** The exclusive or lands on the buddy, and the smaller of the two
      addresses is the merged block's. */
  lemma FlipFindsBuddy(b: Block)
    ensures FlipBit(Addr(b), b.order + FRAME_BITS) == Addr(Buddy(b))
    ensures Addr(Parent(b)) == if Addr(b) <= Addr(Buddy(b)) then Addr(b) else Addr(Buddy(b))
  {
    AddrRoundTrip(b);
    ParentOfHalves(b);
    SplitAddr(Parent(b));
    if b.index % 2 == 0 {
      assert Low(Parent(b)) == b && High(Parent(b)) == Buddy(b);
    } else {
      assert High(Parent(b)) == b && Low(Parent(b)) == Buddy(b);
    }
  }

  lemma FlipBitStep(a: nat, k: nat)
    requires k > 0
    ensures FlipBit(a, k) == 2 * FlipBit(a / 2, k - 1) + a % 2
  {
  }

  /** `FlipBit` is exclusive or with a single bit: it changes bit `k` and no
      other. */
  lemma {:induction false} FlipBitIsXor(a: nat, k: nat, j: nat)
    ensures Shr(FlipBit(a, k), j) % 2 == if j == k then 1 - Shr(a, j) % 2 else Shr(a, j) % 2
    decreases k
  {
    if k == 0 {
      if j > 0 { assert FlipBit(a, 0) / 2 == a / 2; }
    } else {
      FlipBitStep(a, k);
      if j > 0 {
        assert FlipBit(a, k) / 2 == FlipBit(a / 2, k - 1);
        FlipBitIsXor(a / 2, k - 1, j - 1);
      }
    }
  }

  // ---------------------------------------------------------- view lemmas

  lemma InView(lists: Lists, b: Block)
    requires Tidy(lists)
    ensures b in View(lists) <==> b.order < ORDERS && Addr(b) in lists[b.order]
  {
    ViewToMember(lists, ORDERS, b);
    AddrRoundTrip(b);
    if b in View(lists) {
      var a :| a in lists[b.order] && BlockAt(b.order, a) == b;
      var k :| 0 <= k < |lists[b.order]| && lists[b.order][k] == a;
      assert Aligned(b.order, lists[b.order][k]);
    }
  }

  lemma TidyOrders(lists: Lists)
    requires Tidy(lists)
    ensures Orders(View(lists))
  {
    forall b | b in View(lists) ensures b.order <= MAX_ORDER { InView(lists, b); }
  }

  lemma ListedInView(lists: Lists, o: nat, k: nat)
    requires Tidy(lists) && o < ORDERS && k < |lists[o]|
    ensures BlockAt(o, lists[o][k]) in View(lists) && Addr(BlockAt(o, lists[o][k])) == lists[o][k]
  {
    assert Aligned(o, lists[o][k]);
    InView(lists, BlockAt(o, lists[o][k]));
  }

  lemma ViewEmpty(lists: Lists)
    requires |lists| == ORDERS && forall o :: 0 <= o < ORDERS ==> lists[o] == []
    ensures View(lists) == {}
  {
    if b :| b in View(lists) { InView(lists, b); }
  }

  /** Replacing one list by the same list without `b` removes `b`. */
  lemma ViewRemove(lists: Lists, b: Block, rest: seq<nat>)
    requires Tidy(lists) && b.order < ORDERS && NoDup(rest)
    requires forall x :: x in rest <==> x in lists[b.order] && x != Addr(b)
    ensures Tidy(lists[b.order := rest])
    ensures View(lists[b.order := rest]) == View(lists) - {b}
  {
    var after := lists[b.order := rest];
    forall o, k | 0 <= o < ORDERS && 0 <= k < |after[o]| ensures Aligned(o, after[o][k]) {
      if o == b.order {
        assert rest[k] in lists[o];
      }
    }
    forall c ensures c in View(after) <==> c in View(lists) - {b} {
      InView(after, c);
      InView(lists, c);
      AddrRoundTrip(b);
      AddrRoundTrip(c);
    }
  }

  /** Pushing an address onto a list adds its block. */
  lemma ViewPush(lists: Lists, b: Block)
    requires Tidy(lists) && b.order < ORDERS && b !in View(lists)
    ensures Tidy(lists[b.order := lists[b.order] + [Addr(b)]])
    ensures View(lists[b.order := lists[b.order] + [Addr(b)]]) == View(lists) + {b}
  {
    var after := lists[b.order := lists[b.order] + [Addr(b)]];
    AddrRoundTrip(b);
    InView(lists, b);
    forall c ensures c in View(after) <==> c in View(lists) + {b} {
      InView(after, c);
      InView(lists, c);
      AddrRoundTrip(c);
    }
  }

  // ------------------------------------------------------------- taking

  /** What a taken block is: order `o`, formerly free, now clear of the lists. */
  ghost predicate TookBlock(lists: Lists, o: nat, t: Block, after: Lists)
  {
    && t.order == o && t.index != 0
    && Valid(after) && Clear(View(after), t)
    && (Coalesced(View(lists)) ==> Coalesced(View(after)))
    && forall f :: Free(lists, f) <==> Free(after, f) || Covers(t, f)
  }

  /** A split removes exactly one aligned run of the asked order from the free
      frames, and keeps the lists valid and coalesced; a failing call changes
      nothing and means no block of that order or above was listed. */
  lemma {:induction false} TakeSpec(lists: Lists, o: nat)
    requires Valid(lists) && o <= ORDERS
    ensures Take(lists, o).addr.None? ==>
              Take(lists, o).lists == lists && forall b :: b in View(lists) ==> b.order < o
    ensures Take(lists, o).addr.Some? ==>
              exists t :: Addr(t) == Take(lists, o).addr.value && TookBlock(lists, o, t, Take(lists, o).lists)
    decreases ORDERS - o
  {
    if o > MAX_ORDER {
      TidyOrders(lists);
    } else if lists[o] != [] {
      TakePop(lists, o);
    } else {
      TakeSpec(lists, o + 1);
      var up := Take(lists, o + 1);
      if up.addr.Some? {
        var p :| Addr(p) == up.addr.value && TookBlock(lists, o + 1, p, up.lists);
        TakeSplit(lists, o, p, up.lists);
        assert Addr(Low(p)) == Take(lists, o).addr.value;
      } else {
        forall b | b in View(lists) ensures b.order < o { InView(lists, b); }
      }
    }
  }

  lemma TakePop(lists: Lists, o: nat)
    requires Valid(lists) && o < ORDERS && lists[o] != []
    ensures exists t :: Addr(t) == Take(lists, o).addr.value && TookBlock(lists, o, t, Take(lists, o).lists)
  {
    var n := |lists[o]| - 1;
    var t := BlockAt(o, lists[o][n]);
    ListedInView(lists, o, n);
    assert lists[o] == lists[o][..n] + [Addr(t)];
    ViewRemove(lists, t, lists[o][..n]);
    RemoveBlock(View(lists), t);
    assert Addr(t) == Take(lists, o).addr.value && TookBlock(lists, o, t, Take(lists, o).lists);
  }

  lemma TakeSplit(lists: Lists, o: nat, p: Block, up: Lists)
    requires o < MAX_ORDER && TookBlock(lists, o + 1, p, up)
    ensures Addr(Low(p)) == Addr(p)
    ensures TookBlock(lists, o, Low(p), up[o := up[o] + [Addr(p) + Bytes(o)]])
  {
    TidyOrders(up);
    ParkHigh(View(up), p);
    SplitAddr(p);
    ViewPush(up, High(p));
    forall f ensures Covers(p, f) <==> Covers(Low(p), f) || Covers(High(p), f) { SplitCovers(p, f); }
  }

  /** `after` is `lists` with the last block of order `j` taken and split down to
      order `o`: `a` is its low end, and each order on the way holds the one high
      half that was split off, 4096 * 2^i bytes up. */
  ghost predicate SplitDown(lists: Lists, o: nat, j: nat, a: nat, after: Lists)
  {
    && |lists| == |after| == ORDERS && o <= j < ORDERS && lists[j] != []
    && a == lists[j][|lists[j]| - 1] && after[j] == lists[j][..|lists[j]| - 1]
    && (forall i :: o <= i < j ==> lists[i] == [] && after[i] == [a + 4096 * Pow2(i)])
    && (forall i :: 0 <= i < ORDERS && !(o <= i <= j) ==> after[i] == lists[i])
  }

  lemma SplitOnce(lists: Lists, o: nat, j: nat, a: nat, up: Lists)
    requires SplitDown(lists, o + 1, j, a, up) && lists[o] == []
    ensures SplitDown(lists, o, j, a, up[o := up[o] + [a + Bytes(o)]])
  {
    BytesScale(o);
    assert up[o] == [] && [] + [a + Bytes(o)] == [a + 4096 * Pow2(o)];
  }

  /** Taking in one step: from the smallest order that has a block, split down
      low halves all the way; fails only when no order from `o` on has one. */
  lemma {:induction false} TakeSplitsDown(lists: Lists, o: nat)
    requires |lists| == ORDERS
    ensures var t := Take(lists, o);
            match t.addr
            case Some(a) => exists j :: SplitDown(lists, o, j, a, t.lists)
            case None => t.lists == lists && forall i :: o <= i < ORDERS ==> lists[i] == []
    decreases ORDERS - o
  {
    if o <= MAX_ORDER {
      if lists[o] != [] {
        assert SplitDown(lists, o, o, Take(lists, o).addr.value, Take(lists, o).lists);
      } else {
        TakeSplitsDown(lists, o + 1);
        var up := Take(lists, o + 1);
        if up.addr.Some? {
          var j :| SplitDown(lists, o + 1, j, up.addr.value, up.lists);
          SplitOnce(lists, o, j, up.addr.value, up.lists);
        }
      }
    }
  }

  /** Completeness of splitting: on coalesced lists a request succeeds exactly
      when some naturally aligned run of `2^o` frames is wholly free. */
  lemma TakeComplete(lists: Lists, o: nat)
    requires Valid(lists) && Coalesced(View(lists))
    ensures Take(lists, o).addr.Some? <==> o <= 12 && exists d: Block :: d.order == o && WhollyCovered(View(lists), d)
    ensures Take(lists, o).addr.None? ==> Take(lists, o).lists == lists
  {
    if o > 12 { return; }
    TakeSpec(lists, o);
    if Take(lists, o).addr.Some? {
      var t :| Addr(t) == Take(lists, o).addr.value && TookBlock(lists, o, t, Take(lists, o).lists);
      forall f | Covers(t, f) ensures Covered(View(lists), f) { assert Free(lists, f); }
      assert t.order == o && WhollyCovered(View(lists), t);
    } else {
      forall d: Block | d.order == o && WhollyCovered(View(lists), d) ensures false {
        var b := CoalescedAbsorbs(View(lists), d);
      }
    }
  }

  // ------------------------------------------------------------- freeing

  /** A free adds exactly the block's frames, whatever merges it sets off, and
      leaves nothing to merge if nothing was left before. */
  lemma {:induction false} MergeSpec(lists: Lists, p: Block)
    requires Valid(lists) && p.order <= MAX_ORDER && p.index != 0 && Clear(View(lists), p)
    ensures Valid(Merge(lists, p.order, Addr(p)))
    ensures Coalesced(View(lists)) ==> Coalesced(View(Merge(lists, p.order, Addr(p))))
    ensures forall f :: Free(Merge(lists, p.order, Addr(p)), f) <==> Free(lists, f) || Covers(p, f)
    decreases ORDERS - p.order
  {
    var o := p.order;
    FlipFindsBuddy(p);
    InView(lists, Buddy(p));
    if o < MAX_ORDER && Addr(Buddy(p)) in lists[o] {
      var k := IndexOf(lists[o], Addr(Buddy(p)));
      SwapRemoveContents(lists[o], k);
      var rest := SwapRemove(lists[o], k);
      ViewRemove(lists, Buddy(p), rest);
      MergeUp(View(lists), p);
      MergeSpec(lists[o := rest], Parent(p));
    } else {
      ListBlock(View(lists), p);
      ViewPush(lists, p);
    }
  }

  // ------------------------------------------------------------ counting

  lemma {:induction false} CountUpdate(lists: Lists, o: nat, s: seq<nat>, j: nat)
    requires o < |lists|
    ensures CountFrom(lists[o := s], j) + (if j <= o then |lists[o]| * Pow2(o) else 0)
         == CountFrom(lists, j) + (if j <= o then |s| * Pow2(o) else 0)
    decreases |lists| - j
  {
    if j < |lists| { CountUpdate(lists, o, s, j + 1); }
  }

  lemma {:induction false} CountEmpty(lists: Lists, j: nat)
    requires forall o :: 0 <= o < |lists| ==> lists[o] == []
    ensures CountFrom(lists, j) == 0
    decreases |lists| - j
  {
    if j < |lists| { CountEmpty(lists, j + 1); }
  }

  lemma PopOne(lists: Lists, o: nat)
    requires Valid(lists) && o < ORDERS && lists[o] != []
    ensures var rest := lists[o := lists[o][..|lists[o]| - 1]];
            Valid(rest) && |FreeSet(lists)| == |FreeSet(rest)| + Pow2(o)
  {
    TakePop(lists, o);
    var rest := Take(lists, o).lists;
    var t :| Addr(t) == Take(lists, o).addr.value && TookBlock(lists, o, t, rest);
    forall f: nat ensures Covered(View(lists), f) <==> Covered(View(rest), f) || Covers(t, f) {
      assert Free(lists, f) <==> Free(rest, f) || Covers(t, f);
    }
    CountAdd(View(rest), View(lists), t);
  }

  /** `free_frames` counts each free frame exactly once. */
  lemma {:induction false} CountIsFree(lists: Lists)
    requires Valid(lists)
    ensures CountFrom(lists, 0) == |FreeSet(lists)|
    decreases CountFrom(lists, 0)
  {
    if o :| 0 <= o < ORDERS && lists[o] != [] {
      var n := |lists[o]| - 1;
      PopOne(lists, o);
      CountUpdate(lists, o, lists[o][..n], 0);
      MulStep(n, Pow2(o));
      CountIsFree(lists[o := lists[o][..n]]);
    } else {
      CountEmpty(lists, 0);
      ViewEmpty(lists);
    }
  }

  lemma MulStep(n: nat, p: nat)
    ensures (n + 1) * p == n * p + p
  {
  }

  // ------------------------------------------------------- single frames

  lemma FrameBlock(f: nat)
    ensures Addr(Block(0, f)) == f * FRAME_SIZE
    ensures Addr(Block(0, f)) % FRAME_SIZE == 0 && Addr(Block(0, f)) / FRAME_SIZE == f
    ensures forall g: nat :: Covers(Block(0, f), g) <==> g == f
  {
    BytesScale(0);
  }

  lemma OneMoreFree(V: set<Block>, W: set<Block>, f: nat)
    requires !Covered(V, f) && forall g: nat :: Covered(W, g) <==> Covered(V, g) || g == f
    ensures FrameSet(W) == FrameSet(V) + {f} && f in FrameSet(W) && FrameSet(V) == FrameSet(W) - {f}
  {
    var v, w := FrameSet(V), FrameSet(W);
    assert f in w && f !in v;
    forall g: nat ensures g in w <==> g in v || g == f {
      assert g in w <==> Covered(W, g);
      assert g in v <==> Covered(V, g);
    }
  }

  /** `allocate_frame` in active mode: one free frame leaves, and a refusal
      means none is free. */
  lemma TakeFrame(lists: Lists)
    requires Valid(lists)
    ensures var t := Take(lists, 0);
            match t.addr
            case None => t.lists == lists && FreeSet(lists) == {}
            case Some(a) =>
              && a % FRAME_SIZE == 0 && a / FRAME_SIZE in FreeSet(lists)
              && FreeSet(t.lists) == FreeSet(lists) - {a / FRAME_SIZE}
              && Valid(t.lists) && (Coalesced(View(lists)) ==> Coalesced(View(t.lists)))
  {
    TakeSpec(lists, 0);
    var t := Take(lists, 0);
    if t.addr.None? {
      assert View(lists) == {};
    } else {
      var b :| Addr(b) == t.addr.value && TookBlock(lists, 0, b, t.lists);
      TookFrame(lists, b, t.lists);
    }
  }

  lemma TookFrame(lists: Lists, b: Block, after: Lists)
    requires TookBlock(lists, 0, b, after)
    ensures Addr(b) % FRAME_SIZE == 0 && Addr(b) / FRAME_SIZE == b.index
    ensures b.index in FreeSet(lists) && FreeSet(after) == FreeSet(lists) - {b.index}
  {
    FrameBlock(b.index);
    assert b == Block(0, b.index);
    ClearNotCovered(View(after), b, b.index);
    TookCovers(lists, b, after);
    OneMoreFree(View(after), View(lists), b.index);
  }

  lemma TookCovers(lists: Lists, b: Block, after: Lists)
    requires TookBlock(lists, 0, b, after)
    ensures forall g: nat :: Covered(View(lists), g) <==> Covered(View(after), g) || g == b.index
  {
    FrameBlock(b.index);
    assert b == Block(0, b.index);
    forall g: nat ensures Covered(View(lists), g) <==> Covered(View(after), g) || g == b.index {
      assert Free(lists, g) <==> Free(after, g) || Covers(b, g);
    }
  }

  /** `deallocate_frame`: exactly that frame becomes free. */
  lemma MergeFrame(lists: Lists, a: nat, f: nat)
    requires Valid(lists) && a == f * FRAME_SIZE && f != 0 && f !in FreeSet(lists)
    ensures var r := Merge(lists, 0, a);
            && Valid(r) && FreeSet(r) == FreeSet(lists) + {f}
            && (Coalesced(View(lists)) ==> Coalesced(View(r)))
  {
    FrameBlock(f);
    var b, r := Block(0, f), Merge(lists, 0, a);
    UncoveredIsClear(View(lists), b);
    MergeSpec(lists, b);
    forall g: nat ensures Covered(View(r), g) <==> Covered(View(lists), g) || g == f {
      assert Free(r, g) <==> Free(lists, g) || Covers(b, g);
    }
    OneMoreFree(View(lists), View(r), f);
  }

  /** Last in, first out: a frame just freed that found no buddy to merge with is
      the next one handed out. */
  lemma LastFreedFirstOut(lists: Lists, a: nat)
    requires |lists| == ORDERS && FlipBit(a, FRAME_BITS) !in lists[0]
    ensures Take(Merge(lists, 0, a), 0) == Taken(Some(a), lists)
  {
    var s := lists[0];
    assert (s + [a])[..|s|] == s;
    assert lists[0 := s + [a]][0 := s] == lists;
  }

  /** Freeing a block whose frame `f` a listed block already covers leaves two
      listings of `f`, so the lists are no longer sound. */
  lemma {:induction false} MergeTwice(lists: Lists, p: Block, b: Block, f: nat)
    requires Valid(lists) && p.order <= MAX_ORDER && b in View(lists) && Covers(b, f) && Covers(p, f)
    ensures !Valid(Merge(lists, p.order, Addr(p)))
    decreases ORDERS - p.order
  {
    var o := p.order;
    FlipFindsBuddy(p);
    InView(lists, Buddy(p));
    if o < MAX_ORDER && Addr(Buddy(p)) in lists[o] {
      var rest := SwapRemove(lists[o], IndexOf(lists[o], Addr(Buddy(p))));
      SwapRemoveContents(lists[o], IndexOf(lists[o], Addr(Buddy(p))));
      ViewRemove(lists, Buddy(p), rest);
      RemoveBlock(View(lists), Buddy(p));
      OneHalf(p, f);
      MergeTwice(lists[o := rest], Parent(p), b, f);
    } else {
      PushTwice(lists, p, b, f);
    }
  }

  lemma OneHalf(p: Block, f: nat)
    requires Covers(p, f)
    ensures Covers(Parent(p), f) && !Covers(Buddy(p), f)
  {
    ParentOfHalves(p);
    SplitCovers(Parent(p), f);
  }

  lemma PushTwice(lists: Lists, p: Block, b: Block, f: nat)
    requires Valid(lists) && p.order <= MAX_ORDER && b in View(lists) && Covers(b, f) && Covers(p, f)
    ensures !Valid(lists[p.order := lists[p.order] + [Addr(p)]])
  {
    var o, r := p.order, lists[p.order := lists[p.order] + [Addr(p)]];
    InView(lists, p);
    if p in View(lists) {
      var k := IndexOf(lists[o], Addr(p));
      assert r[o][k] == r[o][|lists[o]|];
    } else {
      ViewPush(lists, p);
      Laminar(b, p, f);
    }
  }

  /** What returning frame `f` does to sound lists: they stay sound if and only
      if `f` was not free, and then exactly `f` joins the free frames. */
  ghost predicate Returned(lists: Lists, f: nat, after: Lists)
  {
    && (Valid(after) <==> f !in FreeSet(lists))
    && (Valid(after) ==> FreeSet(after) == FreeSet(lists) + {f})
    && (Valid(after) && Coalesced(View(lists)) ==> Coalesced(View(after)))
  }

  lemma MergeReturns(lists: Lists, f: nat)
    requires Valid(lists) && f != 0
    ensures Returned(lists, f, Merge(lists, 0, f * FRAME_SIZE))
  {
    if f in FreeSet(lists) {
      FrameBlock(f);
      var b :| b in View(lists) && Covers(b, f);
      MergeTwice(lists, Block(0, f), b, f);
    } else {
      MergeFrame(lists, f * FRAME_SIZE, f);
    }
  }
}
