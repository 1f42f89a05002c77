/** When the kernel heap serves a request, and from where (`kernel/src/memory/allocator`). */
module HeapFits {
  import opened Words
  import opened HeapModel
  import opened HeapTiles
  import opened HeapRuns

  // ---- One region ----

  /** `a` is the least multiple of `align` at or above `n`. */
  ghost predicate FirstMultiple(a: nat, n: nat, align: nat) {
    align > 0 && n <= a && a % align == 0 && forall b :: n <= b < a ==> b % align != 0
  }

  lemma RoundUpIsFirst(n: nat, align: nat)
    requires align > 0
    ensures FirstMultiple(RoundUp(n, align), n, align)
  {
    var a := RoundUp(n, align);
    RoundUpBounds(n, align);
    forall b | n <= b < a ensures b % align != 0 {
      if b % align == 0 {
        assert b == b / align * align && a == a / align * align;
        if a / align <= b / align {
          MulUpTo(a / align, b / align, align);
        } else {
          MulStep(b / align, a / align, align);
        }
      }
    }
  }

  lemma MulUpTo(x: nat, y: nat, b: nat)
    requires x <= y
    ensures x * b <= y * b
  {
    if x < y {
      MulStep(x, y, b);
    }
  }

  lemma FirstUnique(a: nat, b: nat, n: nat, align: nat)
    requires FirstMultiple(a, n, align) && FirstMultiple(b, n, align)
    ensures a == b
  {}

  /** `align_up` overflows on the region's start. */
  predicate Overflowing(r: Region, align: nat) {
    r.start + align - 1 >= TWO_64
  }

  /** The block can be cut from the region at `a`: the first aligned place, with nothing or a whole node left over. */
  ghost predicate Holds(r: Region, size: nat, align: nat, a: nat) {
    && !Overflowing(r, align) && FirstMultiple(a, r.start, align) && a + size < TWO_64
    && (a + size == r.start + r.size || a + size + 16 <= r.start + r.size)
  }

  ghost predicate Refuses(r: Region, size: nat, align: nat) {
    !Overflowing(r, align) && forall a :: !Holds(r, size, align, a)
  }

  /** `alloc_from_region` in terms of the places in the region. */
  lemma RegionFits(r: Region, size: nat, align: nat)
    requires IsPow2(align)
    ensures AllocFromRegion(r, size, align).Overflows? <==> Overflowing(r, align)
    ensures forall a :: AllocFromRegion(r, size, align) == FitsAt(a) <==> Holds(r, size, align, a)
    ensures AllocFromRegion(r, size, align).NoFit? <==> Refuses(r, size, align)
  {
    hide FirstMultiple, IsPow2;
    var a := AlignUp(r.start, align);
    if a.Some? {
      ClearBelowIsFloor(r.start + align - 1, align);
      RoundUpIsFirst(r.start, align);
      assert a.value == RoundUp(r.start, align);
      forall b | FirstMultiple(b, r.start, align) ensures b == a.value {
        FirstUnique(a.value, b, r.start, align);
      }
      assert Holds(r, size, align, a.value) <==> AllocFromRegion(r, size, align) == FitsAt(a.value);
    }
  }

  /** A later place is never tried: the first leaves eight bytes, the next would leave none. */
  lemma LaterPlaceMissed()
    ensures IsPow2(8) && Refuses(Region(0x1000, 24), 16, 8)
    ensures 0x1008 % 8 == 0 && 0x1008 + 16 == 0x1000 + 24
  {
    assert IsPow2(2) && IsPow2(4) && IsPow2(8);
    forall a ensures !Holds(Region(0x1000, 24), 16, 8, a) {
      if Holds(Region(0x1000, 24), 16, 8, a) {
        FirstUnique(a, 0x1000, 0x1000, 8);
      }
    }
  }

  // ---- What is asked of the free list ----

  /** The size and alignment asked of the free list for a layout; `None` when computing them panics. */
  function Request(l: Layout): Option<SizeAlign>
    requires ValidLayout(l)
  {
    if ListIndex(l).Some? then ClassLayoutOk(ListIndex(l).value); Adjusted(ClassLayout(ListIndex(l).value))
    else Adjusted(l)
  }

  /** A layout up to 2048 bytes asks for the least power of two from 8 up that holds its size and its alignment, on a
      boundary of that, and never less than a node; a larger one for its size, padded to its alignment. The request
      panics when the padded size would not be an `isize`. */
  lemma RequestIs(l: Layout)
    requires ValidLayout(l)
    ensures Max(l.size, l.align) <= 2048 ==>
              && Request(l).Some? && LeastPower(Request(l).value.align, Max(l.size, l.align))
              && Request(l).value.size == Max(Request(l).value.align, 16)
    ensures Max(l.size, l.align) > 2048 ==> (Request(l).None? <==> l.size + Max(l.align, 8) - 1 > 0x7FFF_FFFF_FFFF_FFFF)
    ensures Max(l.size, l.align) > 2048 && Request(l).Some? ==>
              && Request(l).value.align == Max(l.align, 8)
              && exists n :: FirstMultiple(n, l.size, Max(l.align, 8)) && Request(l).value.size == Max(n, 16)
  {
    hide IsPow2, FirstMultiple;
    if ListIndex(l).Some? {
      ClassLayoutOk(ListIndex(l).value);
      ClassIsLeast(l);
    } else {
      RoundUpIsFirst(l.size, Max(l.align, 8));
    }
  }

  /** `b` is the least power of two, from 8 up, that is not below `n`. */
  predicate LeastPower(b: nat, n: nat) {
    IsPow2(b) && b >= 8 && b >= n && (b == 8 || b / 2 < n)
  }

  lemma ClassIsLeast(l: Layout)
    requires ListIndex(l).Some?
    ensures LeastPower(BLOCK_SIZES[ListIndex(l).value], Max(l.size, l.align))
  {
    hide IsPow2;
    Pow2Classes();
    var c := ListIndex(l).value;
    ClassHalves(c);
  }

  lemma ClassHalves(c: nat)
    requires c < CLASSES
    ensures BLOCK_SIZES[c] >= 8 && (BLOCK_SIZES[c] == 8 || (c > 0 && BLOCK_SIZES[c] / 2 == BLOCK_SIZES[c - 1]))
  {}

  lemma RequestAligned(l: Layout)
    requires ValidLayout(l) && Request(l).Some?
    ensures IsPow2(Request(l).value.align)
  {
    if ListIndex(l).Some? {
      ClassLayoutOk(ListIndex(l).value);
      AdjustedAligned(ClassLayout(ListIndex(l).value));
    } else {
      AdjustedAligned(l);
    }
  }

  // ---- alloc ----

  /** The class list of the layout has no block, or there is no such list. */
  predicate NoneCached(h: Heap, l: Layout)
    requires |h.cached| == CLASSES
  {
    ListIndex(l).Some? ==> h.cached[ListIndex(l).value] == []
  }

  /** Every region of the free list before `k` was tried in vain. */
  ghost predicate RefusedBefore(h: Heap, s: SizeAlign, k: nat)
    requires k <= |h.free|
  {
    forall j :: 0 <= j < k ==> Refuses(h.free[j], s.size, s.align)
  }

  /** Region `k` is the first not to refuse, and the block can be cut from it at `a`. */
  ghost predicate HoldsAt(h: Heap, s: SizeAlign, k: nat, a: nat) {
    k < |h.free| && RefusedBefore(h, s, k) && Holds(h.free[k], s.size, s.align, a)
  }

  /** Region `k` is the first not to refuse, and the search panics there. */
  ghost predicate OverflowsAt(h: Heap, s: SizeAlign, k: nat) {
    k < |h.free| && RefusedBefore(h, s, k) && Overflowing(h.free[k], s.align)
  }

  ghost predicate HeldAt(h: Heap, s: SizeAlign, a: nat) {
    exists k :: HoldsAt(h, s, k, a)
  }

  ghost predicate SearchOverflows(h: Heap, s: SizeAlign) {
    exists k :: OverflowsAt(h, s, k)
  }

  lemma SearchIs(h: Heap, s: SizeAlign)
    requires IsPow2(s.align)
    ensures var f := FindRegion(h.free, s.size, s.align, 0);
            && (f.NotFound? ==> RefusedBefore(h, s, |h.free|))
            && (f.Panics? ==> SearchOverflows(h, s))
            && (f.Found? ==> HoldsAt(h, s, f.index, f.start))
  {
    hide IsPow2, Holds, Overflowing, Refuses, AllocFromRegion;
    forall k | 0 <= k < |h.free|
      ensures AllocFromRegion(h.free[k], s.size, s.align).Overflows? <==> Overflowing(h.free[k], s.align)
      ensures forall a :: AllocFromRegion(h.free[k], s.size, s.align) == FitsAt(a)
                          <==> Holds(h.free[k], s.size, s.align, a)
      ensures AllocFromRegion(h.free[k], s.size, s.align).NoFit? <==> Refuses(h.free[k], s.size, s.align)
    {
      RegionFits(h.free[k], s.size, s.align);
    }
    var f := FindRegion(h.free, s.size, s.align, 0);
    if f.Panics? {
      var k: nat :| k < |h.free| && AllocFromRegion(h.free[k], s.size, s.align) == Overflows
        && forall j :: 0 <= j < k ==> AllocFromRegion(h.free[j], s.size, s.align) == NoFit;
      assert OverflowsAt(h, s, k);
    }
  }

  /** No region can be the first in two ways. */
  lemma OneAnswer(h: Heap, s: SizeAlign, k: nat, a: nat, k': nat, a': nat)
    requires HoldsAt(h, s, k, a)
    ensures !RefusedBefore(h, s, |h.free|) && !OverflowsAt(h, s, k')
    ensures HoldsAt(h, s, k', a') ==> k' == k && a' == a
  {
    hide FirstMultiple;
    if HoldsAt(h, s, k', a') && k == k' {
      FirstUnique(a, a', h.free[k].start, s.align);
    }
  }

  lemma RefusedOrOverflows(h: Heap, s: SizeAlign, k: nat)
    requires OverflowsAt(h, s, k)
    ensures !RefusedBefore(h, s, |h.free|)
  {}

  lemma SearchIff(h: Heap, s: SizeAlign)
    requires IsPow2(s.align)
    ensures var f := FindRegion(h.free, s.size, s.align, 0);
            && (f.NotFound? <==> RefusedBefore(h, s, |h.free|))
            && (f.Panics? <==> SearchOverflows(h, s))
            && (f.Found? ==> HeldAt(h, s, f.start))
            && (forall a :: HeldAt(h, s, a) ==> f.Found? && f.start == a)
  {
    hide HoldsAt, OverflowsAt, RefusedBefore, IsPow2, FindRegion;
    SearchIs(h, s);
    var f := FindRegion(h.free, s.size, s.align, 0);
    forall k | OverflowsAt(h, s, k) ensures f.Panics? {
      RefusedOrOverflows(h, s, k);
      if f.Found? {
        OneAnswer(h, s, f.index, f.start, k, 0);
      }
    }
    forall a | HeldAt(h, s, a) ensures f.Found? && f.start == a {
      var k :| HoldsAt(h, s, k, a);
      if f.Panics? {
        var k' :| OverflowsAt(h, s, k');
        OneAnswer(h, s, k, a, k', a);
      } else if f.Found? {
        OneAnswer(h, s, k, a, f.index, f.start);
      } else {
        OneAnswer(h, s, k, a, k, a);
      }
    }
    if f.Found? {
      OneAnswer(h, s, f.index, f.start, f.index, f.start);
    } else if f.Panics? {
      var k :| OverflowsAt(h, s, k);
      RefusedOrOverflows(h, s, k);
    }
  }

  lemma FallbackAnswers(h: Heap, request: Layout, l: Layout, q: Option<SizeAlign>)
    requires ValidLayout(request) && q == Adjusted(request)
    ensures var r := Fallback(h, request, l).1;
            && (r.Null? <==> q.Some? && RefusedBefore(h, q.value, |h.free|))
            && (r.Panic? <==> q.None? || SearchOverflows(h, q.value))
            && (forall a :: r == Block(a) <==> q.Some? && HeldAt(h, q.value, a))
  {
    hide Adjusted, HeldAt, SearchOverflows, RefusedBefore, Carve, IsPow2;
    if q.Some? {
      AdjustedAligned(request);
      SearchIff(h, q.value);
    }
  }

  /** `alloc` answers from the class list when that has a block. Otherwise the answer is null exactly when every free
      region refuses; it is a block at `a` exactly when the first region that does not refuse holds it there; and it
      panics exactly when the request does, or when the first region that does not refuse overflows. */
  lemma AllocAnswers(h: Heap, l: Layout)
    requires ValidLayout(l) && |h.cached| == CLASSES
    ensures var r, q := Alloc(h, l).1, Request(l);
            && (!NoneCached(h, l) ==> r == Block(h.cached[ListIndex(l).value][0]))
            && (NoneCached(h, l) ==>
                  && (r.Null? <==> q.Some? && RefusedBefore(h, q.value, |h.free|))
                  && (r.Panic? <==> q.None? || SearchOverflows(h, q.value))
                  && (forall a :: r == Block(a) <==> q.Some? && HeldAt(h, q.value, a)))
  {
    hide Adjusted, HeldAt, SearchOverflows, RefusedBefore, Fallback, IsPow2;
    if ListIndex(l).Some? {
      ClassLayoutOk(ListIndex(l).value);
      FallbackAnswers(h, ClassLayout(ListIndex(l).value), l, Request(l));
    } else {
      FallbackAnswers(h, l, l, Request(l));
    }
  }

  /** Without an address near the top of the address space there is no panic, and null means that nothing fits. */
  lemma NullIffNothingFits(h: Heap, l: Layout)
    requires ValidLayout(l) && |h.cached| == CLASSES && Request(l).Some?
    requires forall k :: 0 <= k < |h.free| ==> h.free[k].start + Request(l).value.align - 1 < TWO_64
    ensures !Alloc(h, l).1.Panic?
    ensures Alloc(h, l).1.Null? <==>
            && NoneCached(h, l)
            && forall k, a :: 0 <= k < |h.free| ==> !Holds(h.free[k], Request(l).value.size, Request(l).value.align, a)
  {
    hide Alloc, Request, Holds;
    AllocAnswers(h, l);
  }

  /** The free list after a block was cut from region `k` at `a`: what is left over goes to the front. */
  function FreeAfter(free: seq<Region>, s: SizeAlign, k: nat, a: nat): seq<Region>
    requires k < |free| && a + s.size <= free[k].start + free[k].size
  {
    var rest := free[k].start + free[k].size - (a + s.size);
    (if rest > 0 then [Region(a + s.size, rest)] else []) + free[..k] + free[k + 1..]
  }

  /** A block from the free list costs its own bytes and the gap before it. */
  lemma AllocTakes(h: Heap, lo: nat, hi: nat, l: Layout, k: nat, a: nat)
    requires Inv(h, lo, hi) && ValidLayout(l) && NoneCached(h, l)
    requires Request(l).Some? && HoldsAt(h, Request(l).value, k, a)
    ensures var (h', r) := Alloc(h, l);
            && r == Block(a) && h'.cached == h.cached && h'.free == FreeAfter(h.free, Request(l).value, k, a)
            && Bytes(h'.tiles, LiveBytes) == Bytes(h.tiles, LiveBytes) + Request(l).value.size
            && Bytes(h'.tiles, StrandedBytes) == Bytes(h.tiles, StrandedBytes) + a - h.free[k].start
  {
    hide RefusedBefore, Inv, Bytes, Replace, BLOCK_SIZES, Pieces, GoodPlace, Alloc, Request, NoneCached, FirstMultiple;
    var s := Request(l).value;
    RequestAligned(l);
    HeldAligned(h, s, k, a);
    PlaceFor(a, l);
    HasClassLists(h, lo, hi);
    AllocCarves(h, l, k, a);
    CarveTiles(h, lo, hi, k, a, s.size, l);
    FreeAfterCarve(h.free, s, k, a);
  }

  lemma HasClassLists(h: Heap, lo: nat, hi: nat)
    requires Inv(h, lo, hi)
    ensures |h.cached| == CLASSES
  {}

  lemma HeldAligned(h: Heap, s: SizeAlign, k: nat, a: nat)
    requires HoldsAt(h, s, k, a)
    ensures s.align > 0 && a % s.align == 0
  {}

  lemma FreeAfterCarve(free: seq<Region>, s: SizeAlign, k: nat, a: nat)
    requires k < |free| && free[k].start <= a && a + s.size <= free[k].start + free[k].size
    ensures Tail(free[k], a, s.size) + RemoveAt(free, k) == FreeAfter(free, s, k, a)
  {}

  lemma AllocCarves(h: Heap, l: Layout, k: nat, a: nat)
    requires ValidLayout(l) && |h.cached| == CLASSES && NoneCached(h, l)
    requires Request(l).Some? && HoldsAt(h, Request(l).value, k, a)
    ensures h.free[k].start <= a && a + Request(l).value.size <= h.free[k].start + h.free[k].size
    ensures Alloc(h, l) == (Carve(h, k, a, Request(l).value.size, l), Block(a))
  {
    hide Adjusted, RefusedBefore, SearchOverflows, IsPow2, FindRegion, Carve;
    var s := Request(l).value;
    RequestAligned(l);
    SearchIs(h, s);
    SearchIff(h, s);
    var f := FindRegion(h.free, s.size, s.align, 0);
    assert HeldAt(h, s, a);
    OneAnswer(h, s, k, a, f.index, f.start);
    if ListIndex(l).Some? {
      ClassLayoutOk(ListIndex(l).value);
    }
  }

  lemma PlaceFor(a: nat, l: Layout)
    requires ValidLayout(l) && Request(l).Some? && Request(l).value.align > 0 && a % Request(l).value.align == 0
    ensures GoodPlace(a, Request(l).value.size, l)
  {
    hide IsPow2, GoodPlace, BLOCK_SIZES, ListIndex;
    if ListIndex(l).Some? {
      ClassLayoutOk(ListIndex(l).value);
      ClassPlace(a, ListIndex(l).value, l);
    } else {
      LargePlace(a, l);
    }
  }

  /** A block from a class list is its last freed one, and costs nothing else. */
  lemma AllocReuses(h: Heap, lo: nat, hi: nat, l: Layout)
    requires Inv(h, lo, hi) && ValidLayout(l) && !NoneCached(h, l)
    ensures var (h', r) := Alloc(h, l);
            var c := ListIndex(l).value;
            && r == Block(h.cached[c][0]) && h'.free == h.free && h'.cached == h.cached[c := h.cached[c][1..]]
            && Bytes(h'.tiles, StrandedBytes) == Bytes(h.tiles, StrandedBytes)
  {
    hide Tiling, Bytes, Replace, SizeSum, CachedSum, Distinct, TileOk, ClassFootprint, BLOCK_SIZES, FreeMatches;
    var c := ListIndex(l).value;
    var p, f := h.cached[c][0], ClassFootprint(c);
    assert p in h.cached[c];
    Recast(h, lo, hi, Tile(p, f, Cached(c)), Tile(p, f, Live(l)));
  }

  // ---- Freeing, then allocating again ----

  lemma {:induction false} ReplaceBack(ts: seq<Tile>, t: Tile, n: Tile)
    requires t in ts && n !in ts
    ensures Replace(Replace(ts, t, [n]), n, [t]) == ts
  {
    var r := Replace(ts, t, [n]);
    if ts[0] == t {
      assert r == [n] + ts[1..];
      assert r[1..] == ts[1..];
    } else {
      assert r[1..] == Replace(ts[1..], t, [n]);
      ReplaceBack(ts[1..], t, n);
    }
  }

  lemma {:induction false} Pow2Divides64(a: nat)
    requires IsPow2(a) && a < TWO_64
    ensures TWO_64 % a == 0
  {
    hide TWO_64;
    TopIsPow2();
    Pow2Divisible(a, TWO_64);
  }

  lemma Pow2Times16(a: nat)
    requires IsPow2(a)
    ensures IsPow2(16 * a)
  {
    hide IsPow2;
    Pow2Double(a);
    Pow2Double(2 * a);
    Pow2Double(4 * a);
    Pow2Double(8 * a);
  }

  lemma Pow2Double(a: nat)
    requires IsPow2(a)
    ensures IsPow2(2 * a)
  {
    assert 2 * a / 2 == a;
  }

  lemma TopIsPow2()
    ensures IsPow2(TWO_64)
  {
    assert IsPow2(0x10) by { assert IsPow2(4); }
    Pow2Times16(0x10);
    Pow2Times16(0x100);
    Pow2Times16(0x1000);
    Pow2Times16(0x1_0000);
    Pow2Times16(0x10_0000);
    Pow2Times16(0x100_0000);
    Pow2Times16(0x1000_0000);
    Pow2Times16(0x1_0000_0000);
    Pow2Times16(0x10_0000_0000);
    Pow2Times16(0x100_0000_0000);
    Pow2Times16(0x1000_0000_0000);
    Pow2Times16(0x1_0000_0000_0000);
    Pow2Times16(0x10_0000_0000_0000);
    Pow2Times16(0x100_0000_0000_0000);
    Pow2Times16(0x1000_0000_0000_0000);
  }

  /** A block is no closer to the top of the address space than its alignment. */
  lemma AlignedBelowTop(p: nat, a: nat)
    requires IsPow2(a) && a < TWO_64 && p < TWO_64 && p % a == 0
    ensures p + a <= TWO_64
  {
    Pow2Divides64(a);
    var x, y := p / a, TWO_64 / a;
    assert p == x * a && TWO_64 == y * a;
    if y <= x {
      MulUpTo(y, x, a);
    } else {
      MulStep(x, y, a);
    }
  }

  lemma LargeAlign(l: Layout)
    requires ValidLayout(l) && ListIndex(l).None? && Adjusted(l).Some?
    ensures Adjusted(l).value.align < TWO_64
  {}

  lemma FitsWhereItWas(p: nat, l: Layout)
    requires ValidLayout(l) && ListIndex(l).None? && TileOk(Tile(p, Footprint(l), Live(l)))
    requires p + Footprint(l) < TWO_64
    ensures IsPow2(Adjusted(l).value.align)
    ensures AllocFromRegion(Region(p, Footprint(l)), Adjusted(l).value.size, Adjusted(l).value.align) == FitsAt(p)
  {
    hide ListIndex, IsPow2, RoundUp;
    AdjustedAligned(l);
    LargeAlign(l);
    var s := Adjusted(l).value;
    assert s.align == l.align || s.align == NODE_ALIGN;
    AlignedBelowTop(p, s.align);
    RegionFits(Region(p, s.size), s.size, s.align);
  }

  lemma LargeAgain(h: Heap, lo: nat, hi: nat, p: nat, l: Layout)
    requires Inv(h, lo, hi) && IsLive(h, p, l) && ListIndex(l).None?
    ensures |Dealloc(h, p, l).cached| == CLASSES && Alloc(Dealloc(h, p, l), l) == (h, Block(p))
  {
    hide Tiling, Bytes, Replace, ListIndex, BLOCK_SIZES, Adjusted, AllocFromRegion, FreeMatches, SumsMatch;
    var f, h1 := Footprint(l), Dealloc(h, p, l);
    var t, n := Tile(p, f, Live(l)), Tile(p, f, Free);
    assert TileOk(t);
    TileInside(h.tiles, lo, hi, t);
    FitsWhereItWas(p, l);
    Recast(h, lo, hi, t, n);
    ReplaceBack(h.tiles, t, n);
    assert h1.free[0] == Region(p, f) && RemoveAt(h1.free, 0) == h.free;
    assert Pieces(Region(p, f), p, f, l) == [t];
  }

  lemma SmallAgain(h: Heap, lo: nat, hi: nat, p: nat, l: Layout)
    requires Inv(h, lo, hi) && IsLive(h, p, l) && ListIndex(l).Some?
    ensures |Dealloc(h, p, l).cached| == CLASSES && Alloc(Dealloc(h, p, l), l) == (h, Block(p))
  {
    hide Tiling, Bytes, Replace, ListIndex, BLOCK_SIZES, FreeMatches, SumsMatch, ClassFootprint, TileOk;
    var c, f, h1 := ListIndex(l).value, Footprint(l), Dealloc(h, p, l);
    var t, n := Tile(p, f, Live(l)), Tile(p, f, Cached(c));
    Recast(h, lo, hi, t, n);
    ReplaceBack(h.tiles, t, n);
    assert h1.cached[c][1..] == h.cached[c];
    assert h1.cached[c := h.cached[c]] == h.cached;
  }

  /** A block that is freed and asked for again comes back at once, and the heap is what it was before. */
  lemma FreeThenAlloc(h: Heap, lo: nat, hi: nat, p: nat, l: Layout)
    requires Inv(h, lo, hi) && IsLive(h, p, l)
    ensures |Dealloc(h, p, l).cached| == CLASSES && Alloc(Dealloc(h, p, l), l) == (h, Block(p))
  {
    hide Inv, Alloc, Dealloc;
    if ListIndex(l).Some? {
      SmallAgain(h, lo, hi, p, l);
    } else {
      LargeAgain(h, lo, hi, p, l);
    }
  }
}
