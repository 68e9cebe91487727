/** The firmware memory map and the bring-up cursor that walks it.

    `BumpNext` is one call of the cursor with every overflow check; `Remaining`
    is what the cursor still owes: the whole usable frames at or after it, in
    map order. */
module BootMap {
  import opened Common
  import opened FreeLists

  const MIN_ADDR: nat := 0x1000

  /** Physical addresses have at most 52 bits (`PhysAddr::new` refuses more). */
  const PHYS_LIMIT: nat := 0x10_0000_0000_0000

  datatype Kind = Usable | Bootloader | Unknown

  datatype Region = Region(start: nat, end: nat, kind: Kind)

  datatype Cursor = Cursor(region: nat, next: nat)

  datatype Bumped = Bumped(addr: Option<nat>, cursor: Cursor)

  ghost predicate MapOk(regions: seq<Region>)
  {
    forall i :: 0 <= i < |regions| && regions[i].kind.Usable? ==>
      regions[i].start <= PHYS_LIMIT && regions[i].end <= PHYS_LIMIT
  }

  function RoundUp(a: nat): nat
  {
    (a + FRAME_SIZE - 1) / FRAME_SIZE * FRAME_SIZE
  }

  function Max(a: nat, b: nat): nat
  {
    if a <= b then b else a
  }

  /** One call of the cursor (`bump_one` and `BootFrameAllocator` alike). */
  function BumpNext(regions: seq<Region>, c: Cursor): Bumped
    decreases |regions| - c.region
  {
    if c.region >= |regions| then Bumped(None, c)
    else
      var r := regions[c.region];
      var skip := Cursor(c.region + 1, 0);
      if !r.kind.Usable? || RoundUp(r.start) > U64_MAX then BumpNext(regions, skip)
      else
        var addr := Max(Max(RoundUp(r.start), c.next), MIN_ADDR);
        if addr + FRAME_SIZE > U64_MAX then Bumped(None, c)
        else if addr + FRAME_SIZE > r.end then BumpNext(regions, skip)
        else Bumped(Some(addr), Cursor(c.region, addr + FRAME_SIZE))
  }

  // ------------------------------------------------- what the cursor walks

  /** First whole frame of a region that is not the zero page. */
  function Lo(r: Region): nat
  {
    Max((r.start + FRAME_SIZE - 1) / FRAME_SIZE, 1)
  }

  /** One past its last whole frame. */
  function Hi(r: Region): nat
  {
    r.end / FRAME_SIZE
  }

  function Range(lo: nat, hi: nat): (s: seq<nat>)
    ensures |s| == if lo <= hi then hi - lo else 0
    ensures forall k :: 0 <= k < |s| ==> s[k] == lo + k
    decreases hi - lo
  {
    if lo >= hi then [] else [lo] + Range(lo + 1, hi)
  }

  /** First frame of region `i` the cursor has not handed out. */
  function LeftLo(regions: seq<Region>, c: Cursor, i: nat): nat
    requires i < |regions|
  {
    if i == c.region then Max(Lo(regions[i]), c.next / FRAME_SIZE) else Lo(regions[i])
  }

  /** Frame `f` lies in region `i` and the cursor has not handed it out. */
  ghost predicate LeftIn(regions: seq<Region>, c: Cursor, i: nat, f: nat)
  {
    && c.region <= i < |regions| && regions[i].kind.Usable?
    && LeftLo(regions, c, i) <= f < Hi(regions[i])
  }

  /** The frames the cursor has yet to hand out, in map order. */
  function Remaining(regions: seq<Region>, c: Cursor): seq<nat>
    decreases |regions| - c.region
  {
    if c.region >= |regions| then []
    else
      var r := regions[c.region];
      (if r.kind.Usable? then Range(LeftLo(regions, c, c.region), Hi(r)) else [])
      + Remaining(regions, Cursor(c.region + 1, 0))
  }

  ghost function ToSet(s: seq<nat>): set<nat>
  {
    set f | f in s
  }

  const START: Cursor := Cursor(0, 0)

  /** Every whole usable frame at or above 0x1000, in map order. */
  function AllFrames(regions: seq<Region>): seq<nat>
  {
    Remaining(regions, START)
  }

  /** Usable regions share no whole frame. */
  ghost predicate Disjoint(regions: seq<Region>)
  {
    forall i, j, f :: 0 <= i < j < |regions| ==> !(LeftIn(regions, START, i, f) && LeftIn(regions, START, j, f))
  }

  ghost predicate CursorOk(regions: seq<Region>, c: Cursor)
  {
    c.next % FRAME_SIZE == 0 && (c.region < |regions| ==> c.next <= PHYS_LIMIT)
  }

  // ---------------------------------------------------------------- lemmas

  /** The cursor's byte arithmetic, in frames. */
  lemma CursorArithmetic(r: Region, next: nat)
    requires r.start <= PHYS_LIMIT && r.end <= PHYS_LIMIT && next % FRAME_SIZE == 0
    ensures var lo := Max(Lo(r), next / FRAME_SIZE);
            var addr := Max(Max(RoundUp(r.start), next), MIN_ADDR);
            && addr == lo * FRAME_SIZE && RoundUp(r.start) <= U64_MAX
            && (addr + FRAME_SIZE > r.end <==> lo >= Hi(r))
            && (addr + FRAME_SIZE) % FRAME_SIZE == 0 && (addr + FRAME_SIZE) / FRAME_SIZE == lo + 1
  {
    assert next == next / FRAME_SIZE * FRAME_SIZE;
  }

  /** Call result `b` hands out exactly the first frame `c` still owes, or
      nothing when none remains. */
  ghost predicate HandsOutNext(regions: seq<Region>, c: Cursor, b: Bumped)
  {
    && CursorOk(regions, b.cursor) && c.region <= b.cursor.region
    && match b.addr
       case None => Remaining(regions, c) == [] && Remaining(regions, b.cursor) == []
       case Some(a) =>
         a % FRAME_SIZE == 0 && Remaining(regions, c) == [a / FRAME_SIZE] + Remaining(regions, b.cursor)
  }

  lemma {:induction false} BumpSpec(regions: seq<Region>, c: Cursor)
    requires MapOk(regions) && CursorOk(regions, c)
    ensures HandsOutNext(regions, c, BumpNext(regions, c))
    decreases |regions| - c.region
  {
    var skip := Cursor(c.region + 1, 0);
    if c.region < |regions| {
      if !regions[c.region].kind.Usable? {
        BumpSpec(regions, skip);
        assert Remaining(regions, c) == Remaining(regions, skip);
      } else if LeftLo(regions, c, c.region) >= Hi(regions[c.region]) {
        BumpSpec(regions, skip);
        BumpUsable(regions, c);
        RemainingStep(regions, c, skip);
      } else {
        BumpUsable(regions, c);
        RemainingStep(regions, c, BumpNext(regions, c).cursor);
      }
    }
  }

  /** One call on a usable region: hand out its first frame left, or move on. */
  lemma BumpUsable(regions: seq<Region>, c: Cursor)
    requires MapOk(regions) && CursorOk(regions, c) && c.region < |regions| && regions[c.region].kind.Usable?
    ensures var lo, b := LeftLo(regions, c, c.region), BumpNext(regions, c);
            if lo >= Hi(regions[c.region]) then b == BumpNext(regions, Cursor(c.region + 1, 0))
            else
              && b.addr.Some? && b.addr.value % FRAME_SIZE == 0 && b.addr.value / FRAME_SIZE == lo
              && b.cursor.region == c.region
              && CursorOk(regions, b.cursor) && b.cursor.next / FRAME_SIZE == lo + 1
  {
    CursorArithmetic(regions[c.region], c.next);
  }

  lemma RemainingStep(regions: seq<Region>, c: Cursor, d: Cursor)
    requires c.region < |regions| && regions[c.region].kind.Usable?
    ensures LeftLo(regions, c, c.region) >= Hi(regions[c.region]) ==>
              Remaining(regions, c) == Remaining(regions, Cursor(c.region + 1, 0))
    ensures LeftLo(regions, c, c.region) < Hi(regions[c.region])
            && d.region == c.region && d.next / FRAME_SIZE == LeftLo(regions, c, c.region) + 1 ==>
              Remaining(regions, c) == [LeftLo(regions, c, c.region)] + Remaining(regions, d)
  {
    var lo, hi, skip := LeftLo(regions, c, c.region), Hi(regions[c.region]), Cursor(c.region + 1, 0);
    var tail := Remaining(regions, skip);
    assert Remaining(regions, c) == Range(lo, hi) + tail;
    if lo >= hi {
      assert Range(lo, hi) == [];
    } else if d.region == c.region && d.next / FRAME_SIZE == lo + 1 {
      assert Remaining(regions, d) == Range(lo + 1, hi) + tail;
      ConsConcat(lo, Range(lo + 1, hi), tail);
    }
  }

  lemma {:induction false} RemainingMembers(regions: seq<Region>, c: Cursor, f: nat)
    ensures f in Remaining(regions, c) <==> exists i :: LeftIn(regions, c, i, f)
    decreases |regions| - c.region
  {
    if c.region < |regions| {
      var skip := Cursor(c.region + 1, 0);
      RemainingMembers(regions, skip, f);
      MemberHere(regions, c, f);
      LeftHere(regions, c, skip, f);
    }
  }

  lemma MemberHere(regions: seq<Region>, c: Cursor, f: nat)
    requires c.region < |regions|
    ensures f in Remaining(regions, c)
       <==> LeftIn(regions, c, c.region, f) || f in Remaining(regions, Cursor(c.region + 1, 0))
  {
    if regions[c.region].kind.Usable? { RangeMembers(LeftLo(regions, c, c.region), Hi(regions[c.region]), f); }
  }

  lemma LeftHere(regions: seq<Region>, c: Cursor, skip: Cursor, f: nat)
    requires skip == Cursor(c.region + 1, 0)
    ensures (exists i :: LeftIn(regions, c, i, f))
       <==> LeftIn(regions, c, c.region, f) || exists i :: LeftIn(regions, skip, i, f)
  {
    forall i: nat ensures i != c.region ==> (LeftIn(regions, c, i, f) <==> LeftIn(regions, skip, i, f)) {
      if i != c.region { SkipLeft(regions, c, i, f); }
    }
    assert !LeftIn(regions, skip, c.region, f);
  }

  /** The 4096 bytes of frame `f` lie in a usable region, past the zero page and,
      in the cursor's own region, at or past the cursor. */
  predicate InRegion(regions: seq<Region>, c: Cursor, i: nat, f: nat)
  {
    && c.region <= i < |regions| && regions[i].kind.Usable?
    && regions[i].start <= 4096 * f && 4096 * (f + 1) <= regions[i].end && 0x1000 <= 4096 * f
    && (i == c.region ==> c.next <= 4096 * f)
  }

  lemma FrameBounds(start: nat, end: nat, f: nat)
    ensures (start + FRAME_SIZE - 1) / FRAME_SIZE <= f <==> start <= 4096 * f
    ensures f < end / FRAME_SIZE <==> 4096 * (f + 1) <= end
  {
  }

  lemma LeftInBytes(regions: seq<Region>, c: Cursor, i: nat, f: nat)
    requires CursorOk(regions, c)
    ensures LeftIn(regions, c, i, f) <==> InRegion(regions, c, i, f)
  {
    if i < |regions| {
      FrameBounds(regions[i].start, regions[i].end, f);
      FrameBounds(c.next, 0, f);
      assert (c.next + FRAME_SIZE - 1) / FRAME_SIZE == c.next / FRAME_SIZE;
    }
  }

  /** In bytes: the frames the cursor still owes are exactly those that lie whole
      in a usable region at or past it. */
  lemma RemainingInBytes(regions: seq<Region>, c: Cursor, f: nat)
    requires CursorOk(regions, c)
    ensures f in Remaining(regions, c) <==> exists i :: InRegion(regions, c, i, f)
  {
    RemainingMembers(regions, c, f);
    forall i: nat ensures LeftIn(regions, c, i, f) <==> InRegion(regions, c, i, f) { LeftInBytes(regions, c, i, f); }
  }

  lemma RangeMembers(lo: nat, hi: nat, f: nat)
    ensures f in Range(lo, hi) <==> lo <= f < hi
  {
    if lo <= f < hi { assert Range(lo, hi)[f - lo] == f; }
  }

  lemma SkipLeft(regions: seq<Region>, c: Cursor, i: nat, f: nat)
    requires i != c.region
    ensures LeftIn(regions, c, i, f) <==> LeftIn(regions, Cursor(c.region + 1, 0), i, f)
  {
  }

  lemma NoDupConcat(a: seq<nat>, b: seq<nat>)
    requires NoDup(a) && NoDup(b) && forall f :: f in a ==> f !in b
    ensures NoDup(a + b)
  {
    forall i, j | 0 <= i < j < |a + b| ensures (a + b)[i] != (a + b)[j] {
      if i < |a| <= j { assert a[i] in a && b[j - |a|] in b; }
    }
  }

  lemma PrefixDistinct(a: seq<nat>, b: seq<nat>)
    requires NoDup(a + b)
    ensures NoDup(a) && forall f :: f in a ==> f !in b
  {
    forall i, j | 0 <= i < j < |a| ensures a[i] != a[j] {
      assert (a + b)[i] == a[i] && (a + b)[j] == a[j];
    }
    forall f | f in a ensures f !in b {
      var i :| 0 <= i < |a| && a[i] == f;
      forall j | 0 <= j < |b| ensures b[j] != f {
        assert (a + b)[i] == f && (a + b)[|a| + j] == b[j];
      }
    }
  }

  lemma LeftFromStart(regions: seq<Region>, c: Cursor, i: nat, f: nat)
    ensures LeftIn(regions, c, i, f) ==> LeftIn(regions, START, i, f)
  {
  }

  lemma HeadApart(regions: seq<Region>, c: Cursor, skip: Cursor, f: nat)
    requires Disjoint(regions) && skip == Cursor(c.region + 1, 0) && LeftIn(regions, c, c.region, f)
    ensures f !in Remaining(regions, skip)
  {
    LeftFromStart(regions, c, c.region, f);
    forall i: nat ensures !LeftIn(regions, skip, i, f) { LeftFromStart(regions, skip, i, f); }
    RemainingMembers(regions, skip, f);
  }

  lemma ZeroNotLeft(regions: seq<Region>, c: Cursor)
    ensures 0 !in Remaining(regions, c)
  {
    RemainingMembers(regions, c, 0);
  }

  lemma DistinctHere(regions: seq<Region>, c: Cursor, skip: Cursor)
    requires Disjoint(regions) && c.region < |regions| && skip == Cursor(c.region + 1, 0)
    requires NoDup(Remaining(regions, skip))
    ensures NoDup(Remaining(regions, c))
  {
    var r, tail := regions[c.region], Remaining(regions, skip);
    if r.kind.Usable? {
      var head := Range(LeftLo(regions, c, c.region), Hi(r));
      forall f | f in head ensures f !in tail {
        RangeMembers(LeftLo(regions, c, c.region), Hi(r), f);
        HeadApart(regions, c, skip, f);
      }
      NoDupConcat(head, tail);
    } else {
      assert [] + tail == tail;
    }
  }

  /** On a disjoint map the cursor never repeats a frame and never hands out
      the zero page. */
  lemma {:induction false} RemainingDistinct(regions: seq<Region>, c: Cursor)
    requires Disjoint(regions)
    ensures NoDup(Remaining(regions, c)) && 0 !in Remaining(regions, c)
    decreases |regions| - c.region
  {
    ZeroNotLeft(regions, c);
    if c.region < |regions| {
      var skip := Cursor(c.region + 1, 0);
      RemainingDistinct(regions, skip);
      DistinctHere(regions, c, skip);
    }
  }

  // ----------------------------------------------------------------- runs

  datatype BumpRun = BumpRun(handed: seq<nat>, cursor: Cursor)

  /** The frames `n` successive calls yield (failed calls yield none). */
  function Bump(regions: seq<Region>, c: Cursor, n: nat): BumpRun
    decreases n
  {
    if n == 0 then BumpRun([], c)
    else
      var b := BumpNext(regions, c);
      var rest := Bump(regions, b.cursor, n - 1);
      BumpRun((if b.addr.Some? then [b.addr.value / FRAME_SIZE] else []) + rest.handed, rest.cursor)
  }

  /** Any number of calls yields the next frames in map order, and what the
      cursor still owes is exactly the rest. */
  lemma {:induction false} BumpRunSpec(regions: seq<Region>, c: Cursor, n: nat)
    requires MapOk(regions) && CursorOk(regions, c)
    ensures Handed(regions, c, n, Bump(regions, c, n))
    decreases n
  {
    if n > 0 {
      BumpSpec(regions, c);
      var b := BumpNext(regions, c);
      BumpRunSpec(regions, b.cursor, n - 1);
      HandedCons(regions, c, n, b, Bump(regions, b.cursor, n - 1));
    }
  }

  /** `n` calls from `c` handed out a prefix of what remained, all of it if they
      handed out fewer than `n`. */
  ghost predicate Handed(regions: seq<Region>, c: Cursor, n: nat, run: BumpRun)
  {
    && run.handed + Remaining(regions, run.cursor) == Remaining(regions, c)
    && (|run.handed| == n || Remaining(regions, run.cursor) == [])
    && |run.handed| <= n && CursorOk(regions, run.cursor)
  }

  lemma HandedCons(regions: seq<Region>, c: Cursor, n: nat, b: Bumped, rest: BumpRun)
    requires n > 0 && HandsOutNext(regions, c, b) && Handed(regions, b.cursor, n - 1, rest)
    ensures Handed(regions, c, n, BumpRun((if b.addr.Some? then [b.addr.value / FRAME_SIZE] else []) + rest.handed, rest.cursor))
  {
    if b.addr.Some? {
      ConsConcat(b.addr.value / FRAME_SIZE, rest.handed, Remaining(regions, rest.cursor));
    } else {
      assert [] + rest.handed == rest.handed;
    }
  }

  lemma ConsConcat(x: nat, s: seq<nat>, t: seq<nat>)
    ensures ([x] + s) + t == [x] + (s + t)
  {
  }
}
