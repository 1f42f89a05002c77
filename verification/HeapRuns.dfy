/** Allocation and deallocation on the tiled heap, and what every run of them keeps. */
module HeapRuns {
  import opened Words
  import opened HeapModel
  import opened HeapTiles

  /** The free list and the size-class lists, as sequences in list order, with the tiling that
      records what each byte is used for. */
  datatype Heap = Heap(tiles: seq<Tile>, free: seq<Region>, cached: seq<seq<nat>>)

  datatype AllocResult = Block(ptr: nat) | Null | Panic

  // ---- The invariant ----

  ghost predicate TileOk(t: Tile) {
    match t.kind
    case Free => t.start % NODE_ALIGN == 0 && t.size >= NODE_SIZE
    case Cached(c) => c < CLASSES && t.size == ClassFootprint(c) && t.start % NODE_ALIGN == 0
      && t.start % BLOCK_SIZES[c] == 0
    case Live(l) =>
      && ValidLayout(l) && (ListIndex(l).None? ==> Adjusted(l).Some?)
      && t.size == Footprint(l) && t.start % NODE_ALIGN == 0 && t.start % l.align == 0
      && (ListIndex(l).Some? ==> t.start % BLOCK_SIZES[ListIndex(l).value] == 0)
    case Stranded => true
  }

  ghost predicate Distinct<T>(s: seq<T>) {
    forall i, j :: 0 <= i < j < |s| ==> s[i] != s[j]
  }

  /** The free list holds exactly the free tiles, each once. */
  ghost predicate FreeMatches(h: Heap) {
    && (forall r :: r in h.free ==> Tile(r.start, r.size, Free) in h.tiles)
    && (forall t :: t in h.tiles && t.kind.Free? ==> Region(t.start, t.size) in h.free)
    && Distinct(h.free)
  }

  /** The class lists hold exactly the cached tiles, each once. */
  ghost predicate CachedMatches(h: Heap) {
    && |h.cached| == CLASSES
    && (forall c, p :: 0 <= c < CLASSES && p in h.cached[c] ==> Tile(p, ClassFootprint(c), Cached(c)) in h.tiles)
    && (forall t :: t in h.tiles && t.kind.Cached? ==> t.kind.class_ < CLASSES && t.start in h.cached[t.kind.class_])
    && (forall c :: 0 <= c < CLASSES ==> Distinct(h.cached[c]))
  }

  ghost function SizeSum(rs: seq<Region>): nat {
    if rs == [] then 0 else rs[0].size + SizeSum(rs[1..])
  }

  /** The bytes held by the first `n` class lists. */
  ghost function CachedSum(cached: seq<seq<nat>>, n: nat): nat
    requires n <= CLASSES && n <= |cached|
  {
    if n == 0 then 0 else CachedSum(cached, n - 1) + |cached[n - 1]| * ClassFootprint(n - 1)
  }

  /** The bytes in the lists are the bytes of the free and the cached tiles. */
  ghost predicate SumsMatch(h: Heap) {
    && |h.cached| == CLASSES
    && SizeSum(h.free) == Bytes(h.tiles, FreeBytes)
    && CachedSum(h.cached, CLASSES) == Bytes(h.tiles, CachedBytes)
  }

  ghost predicate Inv(h: Heap, lo: nat, hi: nat) {
    && 0 < lo && hi < TWO_64 && Tiling(h.tiles, lo, hi)
    && (forall t :: t in h.tiles ==> TileOk(t))
    && FreeMatches(h) && CachedMatches(h) && SumsMatch(h)
  }

  /** `init`: the whole heap is one free region. */
  ghost function Init(lo: nat, hi: nat): Heap
    requires lo < hi
  {
    Heap([Tile(lo, hi - lo, Free)], [Region(lo, hi - lo)], seq(CLASSES, _ => []))
  }

  // ---- The operations ----

  function RemoveAt(rs: seq<Region>, k: nat): seq<Region>
    requires k < |rs|
  {
    rs[..k] + rs[k + 1..]
  }

  /** The pieces a free region is cut into: the alignment gap (stranded), the block, the tail. */
  ghost function Pieces(r: Region, start: nat, size: nat, l: Layout): seq<Tile>
    requires r.start <= start && start + size <= r.start + r.size
  {
    (if r.start < start then [Tile(r.start, start - r.start, Stranded)] else [])
    + [Tile(start, size, Live(l))]
    + (if start + size < r.start + r.size then [Tile(start + size, r.start + r.size - start - size, Free)] else [])
  }

  function Tail(r: Region, start: nat, size: nat): seq<Region>
    requires r.start <= start && start + size <= r.start + r.size
  {
    if start + size < r.start + r.size then [Region(start + size, r.start + r.size - start - size)] else []
  }

  /** Cut a block out of region `k` of the free list and put the tail back at the front. */
  ghost function Carve(h: Heap, k: nat, start: nat, size: nat, l: Layout): Heap
    requires k < |h.free| && h.free[k].start <= start && start + size <= h.free[k].start + h.free[k].size
  {
    var r := h.free[k];
    Heap(Replace(h.tiles, Tile(r.start, r.size, Free), Pieces(r, start, size, l)),
         Tail(r, start, size) + RemoveAt(h.free, k), h.cached)
  }

  /** `LinkedListAllocator::allocate` for `request`, on behalf of a caller who asked for `l`. */
  ghost function Fallback(h: Heap, request: Layout, l: Layout): (Heap, AllocResult)
    requires ValidLayout(request)
  {
    match Adjusted(request)
    case None => (h, Panic)
    case Some(sa) =>
      AdjustedAligned(request);
      match FindRegion(h.free, sa.size, sa.align, 0)
      case NotFound => (h, Null)
      case Panics => (h, Panic)
      case Found(k, start) => (Carve(h, k, start, sa.size, l), Block(start))
  }

  ghost function TakeCached(h: Heap, c: nat, l: Layout): Heap
    requires c < CLASSES && |h.cached| == CLASSES && h.cached[c] != []
  {
    var p := h.cached[c][0];
    var f := ClassFootprint(c);
    Heap(Replace(h.tiles, Tile(p, f, Cached(c)), [Tile(p, f, Live(l))]), h.free, h.cached[c := h.cached[c][1..]])
  }

  function ClassLayout(c: nat): Layout
    requires c < CLASSES
  {
    Layout(BLOCK_SIZES[c], BLOCK_SIZES[c])
  }

  lemma ClassLayoutOk(c: nat)
    requires c < CLASSES
    ensures ValidLayout(ClassLayout(c))
    ensures Adjusted(ClassLayout(c)) == Some(SizeAlign(ClassFootprint(c), Max(BLOCK_SIZES[c], NODE_ALIGN)))
  {
    Pow2Classes();
    var b := BLOCK_SIZES[c];
    RoundUpBounds(b, b);
    assert b <= 2048;
    assert RoundUp(b, b) == b by { QuotientUnique(b + b - 1, b, 1, b - 1); }
  }

  /** `GlobalAlloc::alloc` of the size-class allocator. */
  ghost function Alloc(h: Heap, l: Layout): (Heap, AllocResult)
    requires ValidLayout(l) && |h.cached| == CLASSES
  {
    match ListIndex(l)
    case Some(c) =>
      ClassLayoutOk(c);
      if h.cached[c] != [] then (TakeCached(h, c, l), Block(h.cached[c][0])) else Fallback(h, ClassLayout(c), l)
    case None => Fallback(h, l, l)
  }

  /** `GlobalAlloc::dealloc`. */
  ghost function Dealloc(h: Heap, p: nat, l: Layout): Heap
    requires ValidLayout(l) && |h.cached| == CLASSES
  {
    var f := Footprint(l);
    match ListIndex(l)
    case Some(c) => Heap(Replace(h.tiles, Tile(p, f, Live(l)), [Tile(p, f, Cached(c))]), h.free,
                         h.cached[c := [p] + h.cached[c]])
    case None => Heap(Replace(h.tiles, Tile(p, f, Live(l)), [Tile(p, f, Free)]), [Region(p, f)] + h.free, h.cached)
  }

  // ---- Every operation keeps the invariant ----

  lemma {:induction false} SizeSumConcat(a: seq<Region>, b: seq<Region>)
    ensures SizeSum(a + b) == SizeSum(a) + SizeSum(b)
  {
    if a == [] {
      assert a + b == b;
    } else {
      SizeSumConcat(a[1..], b);
      assert (a + b)[1..] == a[1..] + b;
    }
  }

  lemma SizeSumCons(r: Region, rs: seq<Region>)
    ensures SizeSum([r] + rs) == r.size + SizeSum(rs)
  {
    assert ([r] + rs)[1..] == rs;
  }

  lemma SizeSumRemove(rs: seq<Region>, k: nat)
    requires k < |rs|
    ensures SizeSum(RemoveAt(rs, k)) + rs[k].size == SizeSum(rs)
  {
    hide SizeSum;
    SizeSumConcat(rs[..k], rs[k + 1..]);
    SizeSumConcat(rs[..k], rs[k..]);
    assert rs == rs[..k] + rs[k..];
    SizeSumFirst(rs, k);
  }

  lemma SizeSumFirst(rs: seq<Region>, k: nat)
    requires k < |rs|
    ensures SizeSum(rs[k..]) == rs[k].size + SizeSum(rs[k + 1..])
  {
    assert rs[k..][1..] == rs[k + 1..];
  }

  lemma {:induction false} CachedSumUpdate(cached: seq<seq<nat>>, c: nat, x: seq<nat>, n: nat)
    requires |cached| == CLASSES && c < CLASSES && n <= CLASSES
    ensures CachedSum(cached[c := x], n)
            == CachedSum(cached, n) + if c < n then (|x| - |cached[c]|) * ClassFootprint(c) else 0
  {
    if n > 0 {
      CachedSumUpdate(cached, c, x, n - 1);
      if c == n - 1 {
        var f := ClassFootprint(c);
        assert |x| * f == |cached[c]| * f + (|x| - |cached[c]|) * f;
      }
    }
  }

  /** No two tiles start at the same address. */
  lemma SameStart(ts: seq<Tile>, lo: nat, hi: nat, t: Tile, u: Tile)
    requires Tiling(ts, lo, hi) && t in ts && u in ts && t.start == u.start
    ensures t == u
  {
    if t != u {
      TilesApart(ts, lo, hi, t, u);
      TileInside(ts, lo, hi, t);
      TileInside(ts, lo, hi, u);
    }
  }

  /** A tile replaced by one of the same place and size. */
  lemma Recast(h: Heap, lo: nat, hi: nat, t: Tile, n: Tile)
    requires Tiling(h.tiles, lo, hi) && t in h.tiles && n.start == t.start && n.size == t.size
    ensures Tiling(Replace(h.tiles, t, [n]), lo, hi)
    ensures forall x :: x in Replace(h.tiles, t, [n]) <==> (x in h.tiles && x != t) || x == n
    ensures forall u :: Bytes(Replace(h.tiles, t, [n]), u) + (if UseOf(t.kind) == u then t.size else 0)
                        == Bytes(h.tiles, u) + if UseOf(n.kind) == u then n.size else 0
    ensures forall x :: x in h.tiles && x.start == t.start ==> x == t
  {
    TileInside(h.tiles, lo, hi, t);
    assert Tiling([n], t.start, t.start + t.size);
    ReplaceTiling(h.tiles, t, [n], lo, hi);
    ReplaceMembers(h.tiles, t, [n], lo, hi);
    forall u ensures Bytes(Replace(h.tiles, t, [n]), u) + (if UseOf(t.kind) == u then t.size else 0)
                     == Bytes(h.tiles, u) + if UseOf(n.kind) == u then n.size else 0 {
      ReplaceBytes(h.tiles, t, [n], u);
      assert Bytes([t], u) == if UseOf(t.kind) == u then t.size else 0;
      assert Bytes([n], u) == if UseOf(n.kind) == u then n.size else 0;
    }
    forall x | x in h.tiles && x.start == t.start ensures x == t {
      SameStart(h.tiles, lo, hi, x, t);
    }
  }

  ghost predicate IsLive(h: Heap, p: nat, l: Layout) {
    ValidLayout(l) && Tile(p, Footprint(l), Live(l)) in h.tiles
  }

  lemma ToCacheKeeps(h: Heap, lo: nat, hi: nat, p: nat, l: Layout, c: nat)
    requires Inv(h, lo, hi) && IsLive(h, p, l) && ListIndex(l) == Some(c)
    ensures Inv(Dealloc(h, p, l), lo, hi)
  {
    hide Tiling, Bytes, Replace, SizeSum, CachedSum, ListIndex, BLOCK_SIZES;
    var f := Footprint(l);
    Recast(h, lo, hi, Tile(p, f, Live(l)), Tile(p, f, Cached(c)));
    CachedSumUpdate(h.cached, c, [p] + h.cached[c], CLASSES);
  }

  lemma ToFreeKeeps(h: Heap, lo: nat, hi: nat, p: nat, l: Layout)
    requires Inv(h, lo, hi) && IsLive(h, p, l) && ListIndex(l) == None
    ensures Inv(Dealloc(h, p, l), lo, hi)
  {
    hide Tiling, Bytes, Replace, SizeSum, CachedSum, ListIndex, BLOCK_SIZES;
    var f := Footprint(l);
    Recast(h, lo, hi, Tile(p, f, Live(l)), Tile(p, f, Free));
    AdjustedAligned(l);
    SizeSumCons(Region(p, f), h.free);
  }

  lemma DeallocKeeps(h: Heap, lo: nat, hi: nat, p: nat, l: Layout)
    requires Inv(h, lo, hi) && IsLive(h, p, l)
    ensures Inv(Dealloc(h, p, l), lo, hi)
  {
    hide Inv, Dealloc;
    match ListIndex(l)
    case Some(c) => ToCacheKeeps(h, lo, hi, p, l, c);
    case None => ToFreeKeeps(h, lo, hi, p, l);
  }

  lemma TakeCachedKeeps(h: Heap, lo: nat, hi: nat, c: nat, l: Layout)
    requires Inv(h, lo, hi) && ValidLayout(l) && ListIndex(l) == Some(c) && h.cached[c] != []
    ensures Inv(TakeCached(h, c, l), lo, hi)
  {
    hide Tiling, Bytes, Replace, SizeSum, CachedSum, FreeMatches, Distinct, TileOk, ListIndex, ClassFootprint,
         BLOCK_SIZES;
    var p, f := h.cached[c][0], ClassFootprint(c);
    Recast(h, lo, hi, Tile(p, f, Cached(c)), Tile(p, f, Live(l)));
    CachedSumUpdate(h.cached, c, h.cached[c][1..], CLASSES);
    TakenTileOk(p, c, l);
    TakeCachedFree(h, lo, hi, c, l);
    TakeCachedMatches(h, lo, hi, c, l);
  }

  lemma TakenTileOk(p: nat, c: nat, l: Layout)
    requires c < CLASSES && TileOk(Tile(p, ClassFootprint(c), Cached(c))) && ValidLayout(l) && ListIndex(l) == Some(c)
    ensures TileOk(Tile(p, ClassFootprint(c), Live(l)))
  {
    hide IsPow2;
    AlignedForClass(p, c, l);
  }

  lemma TakeCachedFree(h: Heap, lo: nat, hi: nat, c: nat, l: Layout)
    requires Inv(h, lo, hi) && c < CLASSES && h.cached[c] != []
    ensures FreeMatches(TakeCached(h, c, l))
  {
    hide Tiling, Bytes, Replace, SumsMatch, TileOk, Distinct;
    var p, f := h.cached[c][0], ClassFootprint(c);
    Recast(h, lo, hi, Tile(p, f, Cached(c)), Tile(p, f, Live(l)));
  }

  lemma TakeCachedMatches(h: Heap, lo: nat, hi: nat, c: nat, l: Layout)
    requires Inv(h, lo, hi) && c < CLASSES && h.cached[c] != []
    ensures CachedMatches(TakeCached(h, c, l))
  {
    hide Tiling, Bytes, Replace, SumsMatch, TileOk, FreeMatches;
    var p, f := h.cached[c][0], ClassFootprint(c);
    var cached := h.cached[c := h.cached[c][1..]];
    Recast(h, lo, hi, Tile(p, f, Cached(c)), Tile(p, f, Live(l)));
    forall x ensures x in cached[c] <==> x in h.cached[c] && x != p {
      RestOfDistinct(h.cached[c], x);
    }
    assert Distinct(cached[c]);
  }

  lemma RestOfDistinct(s: seq<nat>, x: nat)
    requires s != [] && Distinct(s)
    ensures x in s[1..] <==> x in s && x != s[0]
  {
    assert s == [s[0]] + s[1..];
  }

  /** A block aligned to its class is aligned for every layout of the class. */
  lemma AlignedForClass(p: nat, c: nat, l: Layout)
    requires ValidLayout(l) && ListIndex(l) == Some(c) && p % BLOCK_SIZES[c] == 0
    ensures p % l.align == 0
  {
    Pow2Classes();
    Pow2Divisible(l.align, BLOCK_SIZES[c]);
    DividesTransitive(p, BLOCK_SIZES[c], l.align);
  }

  /** The three pieces tile the region they are cut from. */
  lemma PiecesTile(r: Region, start: nat, size: nat, l: Layout)
    requires size > 0 && r.start <= start && start + size <= r.start + r.size
    ensures Tiling(Pieces(r, start, size, l), r.start, r.start + r.size)
    ensures Bytes(Pieces(r, start, size, l), FreeBytes) == r.start + r.size - (start + size)
    ensures Bytes(Pieces(r, start, size, l), CachedBytes) == 0
    ensures Bytes(Pieces(r, start, size, l), StrandedBytes) == start - r.start
    ensures Bytes(Pieces(r, start, size, l), LiveBytes) == size
  {
    var gap := if r.start < start then [Tile(r.start, start - r.start, Stranded)] else [];
    var block := [Tile(start, size, Live(l))];
    var tail := if start + size < r.start + r.size then [Tile(start + size, r.start + r.size - start - size, Free)]
      else [];
    assert Tiling(gap, r.start, start) && Tiling(block, start, start + size)
           && Tiling(tail, start + size, r.start + r.size);
    TilingConcat(gap, block, r.start, start, start + size);
    TilingConcat(gap + block, tail, r.start, start + size, r.start + r.size);
    forall u ensures Bytes(gap + block + tail, u) == Bytes(gap, u) + Bytes(block, u) + Bytes(tail, u) {
      BytesConcat(gap, block, u);
      BytesConcat(gap + block, tail, u);
    }
  }

  lemma RemoveAtMembers(rs: seq<Region>, k: nat)
    requires k < |rs| && Distinct(rs)
    ensures Distinct(RemoveAt(rs, k))
    ensures forall x :: x in RemoveAt(rs, k) <==> x in rs && x != rs[k]
  {
    forall x ensures x in RemoveAt(rs, k) <==> x in rs && x != rs[k] {
      if x in rs && x != rs[k] {
        var i :| 0 <= i < |rs| && rs[i] == x;
        assert RemoveAt(rs, k)[if i < k then i else i - 1] == x;
      }
    }
  }

  /** A block of `size` bytes for `l` may lie at `start`. */
  ghost predicate GoodPlace(start: nat, size: nat, l: Layout) {
    size % NODE_ALIGN == 0 && size > 0 && TileOk(Tile(start, size, Live(l)))
  }

  lemma PiecesOk(r: Region, start: nat, size: nat, l: Layout)
    requires TileOk(Tile(r.start, r.size, Free)) && GoodPlace(start, size, l)
    requires r.start <= start && start + size <= r.start + r.size
    requires start + size == r.start + r.size || start + size + NODE_SIZE <= r.start + r.size
    ensures forall x :: x in Pieces(r, start, size, l) ==> TileOk(x)
  {
    SumDivisible(start, size);
  }

  lemma FreeTileBytes(t: Tile)
    requires t.kind == Free
    ensures Bytes([t], FreeBytes) == t.size
    ensures Bytes([t], CachedBytes) == Bytes([t], LiveBytes) == Bytes([t], StrandedBytes) == 0
  {}

  lemma TailSum(r: Region, start: nat, size: nat)
    requires r.start <= start && start + size <= r.start + r.size
    ensures SizeSum(Tail(r, start, size)) == r.start + r.size - start - size
  {}

  lemma CarveTiles(h: Heap, lo: nat, hi: nat, k: nat, start: nat, size: nat, l: Layout)
    requires Inv(h, lo, hi) && k < |h.free| && GoodPlace(start, size, l)
    requires h.free[k].start <= start && start + size <= h.free[k].start + h.free[k].size
    requires start + size == h.free[k].start + h.free[k].size
             || start + size + NODE_SIZE <= h.free[k].start + h.free[k].size
    ensures var r, h' := h.free[k], Carve(h, k, start, size, l);
            var t := Tile(r.start, r.size, Free);
            && t in h.tiles && Tiling(h'.tiles, lo, hi)
            && (forall x :: x in h'.tiles <==> (x in h.tiles && x != t) || x in Pieces(r, start, size, l))
            && (forall x :: x in h'.tiles ==> TileOk(x))
            && Bytes(h'.tiles, FreeBytes) + start + size == Bytes(h.tiles, FreeBytes) + r.start
            && Bytes(h'.tiles, CachedBytes) == Bytes(h.tiles, CachedBytes)
            && Bytes(h'.tiles, StrandedBytes) == Bytes(h.tiles, StrandedBytes) + start - r.start
            && Bytes(h'.tiles, LiveBytes) == Bytes(h.tiles, LiveBytes) + size
  {
    hide Tiling, Replace, SizeSum, CachedSum, ListIndex, BLOCK_SIZES, TileOk, Bytes, Pieces, CachedMatches, SumsMatch;
    var r := h.free[k];
    var t := Tile(r.start, r.size, Free);
    var mid := Pieces(r, start, size, l);
    PiecesTile(r, start, size, l);
    PiecesOk(r, start, size, l);
    ReplaceTiling(h.tiles, t, mid, lo, hi);
    ReplaceMembers(h.tiles, t, mid, lo, hi);
    FreeTileBytes(t);
    ReplaceBytes(h.tiles, t, mid, FreeBytes);
    ReplaceBytes(h.tiles, t, mid, CachedBytes);
    ReplaceBytes(h.tiles, t, mid, StrandedBytes);
    ReplaceBytes(h.tiles, t, mid, LiveBytes);
  }

  lemma CarveFree(h: Heap, lo: nat, hi: nat, k: nat, start: nat, size: nat, l: Layout)
    requires Inv(h, lo, hi) && k < |h.free| && GoodPlace(start, size, l)
    requires h.free[k].start <= start && start + size <= h.free[k].start + h.free[k].size
    requires start + size == h.free[k].start + h.free[k].size
             || start + size + NODE_SIZE <= h.free[k].start + h.free[k].size
    ensures FreeMatches(Carve(h, k, start, size, l))
  {
    hide Tiling, Replace, TileOk, CachedMatches, SumsMatch, Bytes, Distinct, RemoveAt, Pieces, Tail;
    CarveTiles(h, lo, hi, k, start, size, l);
    RemoveAtMembers(h.free, k);
    var r := h.free[k];
    var tail, rest, h' := Tail(r, start, size), RemoveAt(h.free, k), Carve(h, k, start, size, l);
    PiecesFree(r, start, size, l);
    forall x | x in rest ensures x !in tail {
      RestNotInTail(h, lo, hi, r, start, size, x);
    }
    DistinctConcat(tail, rest);
    forall x | x in h'.free ensures Tile(x.start, x.size, Free) in h'.tiles {
      assert x in tail || x in rest;
    }
  }

  /** The free piece of a cut region is its tail. */
  lemma PiecesFree(r: Region, start: nat, size: nat, l: Layout)
    requires r.start <= start && start + size <= r.start + r.size
    ensures forall t ::
              t in Pieces(r, start, size, l) && t.kind.Free? ==> Region(t.start, t.size) in Tail(r, start, size)
    ensures forall x :: x in Tail(r, start, size) ==> Tile(x.start, x.size, Free) in Pieces(r, start, size, l)
    ensures Distinct(Tail(r, start, size))
  {}

  lemma RestNotInTail(h: Heap, lo: nat, hi: nat, r: Region, start: nat, size: nat, x: Region)
    requires Inv(h, lo, hi) && r in h.free && x in h.free && x != r && size > 0
    requires r.start <= start && start + size <= r.start + r.size
    ensures x !in Tail(r, start, size)
  {
    hide Tiling, CachedMatches, SumsMatch, TileOk, Distinct;
    var t, u := Tile(r.start, r.size, Free), Tile(x.start, x.size, Free);
    assert t in h.tiles && u in h.tiles;
    TilesApart(h.tiles, lo, hi, t, u);
    TileInside(h.tiles, lo, hi, u);
  }

  lemma DistinctConcat(a: seq<Region>, b: seq<Region>)
    requires Distinct(a) && Distinct(b) && forall x :: x in b ==> x !in a
    ensures Distinct(a + b)
  {
    var c := a + b;
    forall i, j | 0 <= i < j < |c| ensures c[i] != c[j] {
      if i < |a| <= j {
        assert c[i] in a && c[j] == b[j - |a|];
      }
    }
  }

  lemma CarveKeeps(h: Heap, lo: nat, hi: nat, k: nat, start: nat, size: nat, l: Layout)
    requires Inv(h, lo, hi) && k < |h.free| && GoodPlace(start, size, l)
    requires h.free[k].start <= start && start + size <= h.free[k].start + h.free[k].size
    requires start + size == h.free[k].start + h.free[k].size
             || start + size + NODE_SIZE <= h.free[k].start + h.free[k].size
    ensures Inv(Carve(h, k, start, size, l), lo, hi)
  {
    hide Tiling, Replace, SizeSum, CachedSum, TileOk, FreeMatches, Bytes, BLOCK_SIZES;
    CarveTiles(h, lo, hi, k, start, size, l);
    CarveFree(h, lo, hi, k, start, size, l);
    var r := h.free[k];
    SizeSumRemove(h.free, k);
    var tail, rest := Tail(r, start, size), RemoveAt(h.free, k);
    SizeSumConcat(tail, rest);
    TailSum(r, start, size);
  }

  lemma ClassPlace(start: nat, c: nat, l: Layout)
    requires ValidLayout(l) && ListIndex(l) == Some(c) && start % Max(BLOCK_SIZES[c], NODE_ALIGN) == 0
    ensures GoodPlace(start, ClassFootprint(c), l)
  {
    AlignedForClass(start, c, l);
    Pow2Classes();
    Pow2Divisible(NODE_ALIGN, BLOCK_SIZES[c]);
    DividesTransitive(start, BLOCK_SIZES[c], NODE_ALIGN);
  }

  lemma LargePlace(start: nat, l: Layout)
    requires ValidLayout(l) && ListIndex(l) == None && Adjusted(l).Some? && start % Adjusted(l).value.align == 0
    ensures GoodPlace(start, Adjusted(l).value.size, l)
  {
    AdjustedAligned(l);
    DividesTransitive(start, Adjusted(l).value.align, l.align);
    DividesTransitive(start, Adjusted(l).value.align, NODE_ALIGN);
  }

  /** What the caller of `alloc` gets, and what it costs the rest of the heap. */
  ghost predicate AllocOk(h: Heap, l: Layout, h': Heap, r: AllocResult, lo: nat, hi: nat)
    requires ValidLayout(l)
  {
    && (r.Block? ==> NewBlock(h, l, h', r.ptr, lo, hi))
    && (!r.Block? ==> h' == h)
  }

  /** The block is aligned and large enough, lies in the heap, overlaps no block that was live, and
      leaves every such block live; bytes are only ever added to the stranded ones. */
  ghost predicate NewBlock(h: Heap, l: Layout, h': Heap, p: nat, lo: nat, hi: nat)
    requires ValidLayout(l)
  {
    && IsLive(h', p, l) && p % l.align == 0 && l.size <= Footprint(l) && lo <= p && p + Footprint(l) <= hi
    && (forall t :: t in h.tiles && t.kind.Live? ==> t in h'.tiles && Apart(t, Tile(p, Footprint(l), Live(l))))
    && (forall t :: t in h'.tiles && t.kind.Live? ==> t in h.tiles || t == Tile(p, Footprint(l), Live(l)))
    && Bytes(h.tiles, StrandedBytes) <= Bytes(h'.tiles, StrandedBytes)
  }

  lemma CarvedBlock(h: Heap, lo: nat, hi: nat, k: nat, start: nat, l: Layout)
    requires Inv(h, lo, hi) && ValidLayout(l) && k < |h.free| && GoodPlace(start, Footprint(l), l)
    requires var r, size := h.free[k], Footprint(l);
             && r.start <= start && start + size <= r.start + r.size
             && (start + size == r.start + r.size || start + size + NODE_SIZE <= r.start + r.size)
    ensures var h' := Carve(h, k, start, Footprint(l), l); Inv(h', lo, hi) && NewBlock(h, l, h', start, lo, hi)
  {
    hide Tiling, Replace, SizeSum, CachedSum, FreeMatches, CachedMatches, SumsMatch, Bytes, BLOCK_SIZES, Footprint,
         ListIndex;
    var r, size := h.free[k], Footprint(l);
    assert Tile(r.start, r.size, Free) in h.tiles by { FreeListed(h, k); }
    CarveKeeps(h, lo, hi, k, start, size, l);
    CarveTiles(h, lo, hi, k, start, size, l);
    var b := Tile(start, size, Live(l));
    var h' := Carve(h, k, start, size, l);
    TileInside(h'.tiles, lo, hi, b);
    forall t | t in h.tiles && t.kind.Live? ensures Apart(t, b) {
      TilesApart(h.tiles, lo, hi, t, Tile(r.start, r.size, Free));
    }
    LargeEnough(start, size, l);
  }

  lemma FreeListed(h: Heap, k: nat)
    requires FreeMatches(h) && k < |h.free|
    ensures Tile(h.free[k].start, h.free[k].size, Free) in h.tiles
  {}

  lemma LargeEnough(start: nat, size: nat, l: Layout)
    requires TileOk(Tile(start, size, Live(l)))
    ensures l.size <= Footprint(l) == size && start % l.align == 0
  {
    if ListIndex(l).None? {
      AdjustedAligned(l);
    }
  }

  lemma FallbackOk(h: Heap, lo: nat, hi: nat, request: Layout, l: Layout)
    requires Inv(h, lo, hi) && ValidLayout(l) && ValidLayout(request)
    requires match ListIndex(l) case Some(c) => request == ClassLayout(c) case None => request == l
    ensures var (h', r) := Fallback(h, request, l); Inv(h', lo, hi) && AllocOk(h, l, h', r, lo, hi)
  {
    hide Inv, NewBlock, GoodPlace, BLOCK_SIZES;
    if Adjusted(request).Some? {
      AdjustedAligned(request);
      var sa := Adjusted(request).value;
      var f := FindRegion(h.free, sa.size, sa.align, 0);
      if f.Found? {
        match ListIndex(l) {
          case Some(c) =>
            ClassLayoutOk(c);
            ClassPlace(f.start, c, l);
          case None =>
            LargePlace(f.start, l);
        }
        CarvedBlock(h, lo, hi, f.index, f.start, l);
      }
    }
  }

  lemma TakeCachedOk(h: Heap, lo: nat, hi: nat, c: nat, l: Layout)
    requires Inv(h, lo, hi) && ValidLayout(l) && ListIndex(l) == Some(c) && h.cached[c] != []
    ensures var h' := TakeCached(h, c, l); Inv(h', lo, hi) && NewBlock(h, l, h', h.cached[c][0], lo, hi)
  {
    hide Tiling, Replace, SizeSum, CachedSum, Bytes, BLOCK_SIZES, ListIndex;
    TakeCachedKeeps(h, lo, hi, c, l);
    var p, f := h.cached[c][0], ClassFootprint(c);
    var t, b := Tile(p, f, Cached(c)), Tile(p, f, Live(l));
    Recast(h, lo, hi, t, b);
    TileInside(h.tiles, lo, hi, t);
    forall x | x in h.tiles && x.kind.Live? ensures Apart(x, b) {
      TilesApart(h.tiles, lo, hi, x, t);
    }
    LargeEnough(p, f, l);
  }

  /** `alloc` keeps the invariant and gives what `GlobalAlloc` asks for. */
  lemma AllocKeeps(h: Heap, lo: nat, hi: nat, l: Layout)
    requires Inv(h, lo, hi) && ValidLayout(l)
    ensures var (h', r) := Alloc(h, l); Inv(h', lo, hi) && AllocOk(h, l, h', r, lo, hi)
  {
    hide Tiling, FreeMatches, SumsMatch, NewBlock, BLOCK_SIZES, TakeCached, Fallback;
    match ListIndex(l)
    case Some(c) =>
      ClassLayoutOk(c);
      if h.cached[c] != [] {
        TakeCachedOk(h, lo, hi, c, l);
      } else {
        FallbackOk(h, lo, hi, ClassLayout(c), l);
      }
    case None =>
      FallbackOk(h, lo, hi, l, l);
  }

  lemma InitOk(lo: nat, hi: nat)
    requires 0 < lo && lo % NODE_ALIGN == 0 && lo + NODE_SIZE <= hi < TWO_64
    ensures Inv(Init(lo, hi), lo, hi)
  {
    var h := Init(lo, hi);
    assert Tiling(h.tiles[1..], hi, hi);
    assert forall n :: 0 <= n <= CLASSES ==> CachedSum(h.cached, n) == 0 by {
      forall n | 0 <= n <= CLASSES ensures CachedSum(h.cached, n) == 0 {
        NothingCached(h.cached, n);
      }
    }
    TailSum(Region(lo, hi - lo), lo, 0);
    assert h.free == [Region(lo, hi - lo)];
    FreeTileBytes(h.tiles[0]);
    assert h.tiles == [h.tiles[0]];
  }

  lemma {:induction false} NothingCached(cached: seq<seq<nat>>, n: nat)
    requires n <= CLASSES && |cached| == CLASSES && forall c :: 0 <= c < CLASSES ==> cached[c] == []
    ensures CachedSum(cached, n) == 0
  {
    if n > 0 {
      NothingCached(cached, n - 1);
    }
  }

  // ---- Runs ----

  datatype Op = OpAlloc(l: Layout) | OpFree(p: nat, l: Layout)

  /** The `GlobalAlloc` contract: a block is freed once, with the layout it was allocated with. */
  ghost predicate Legal(h: Heap, op: Op) {
    match op
    case OpAlloc(l) => ValidLayout(l)
    case OpFree(p, l) => IsLive(h, p, l)
  }

  ghost function Step(h: Heap, op: Op): Heap
    requires |h.cached| == CLASSES && Legal(h, op)
  {
    match op
    case OpAlloc(l) => Alloc(h, l).0
    case OpFree(p, l) => Dealloc(h, p, l)
  }

  lemma DeallocStranded(h: Heap, lo: nat, hi: nat, p: nat, l: Layout)
    requires Inv(h, lo, hi) && IsLive(h, p, l)
    ensures Bytes(Dealloc(h, p, l).tiles, StrandedBytes) == Bytes(h.tiles, StrandedBytes)
  {
    hide Tiling, Bytes, Replace, BLOCK_SIZES;
    var f := Footprint(l);
    match ListIndex(l)
    case Some(c) => Recast(h, lo, hi, Tile(p, f, Live(l)), Tile(p, f, Cached(c)));
    case None => Recast(h, lo, hi, Tile(p, f, Live(l)), Tile(p, f, Free));
  }

  lemma StepKeeps(h: Heap, lo: nat, hi: nat, op: Op)
    requires Inv(h, lo, hi) && Legal(h, op)
    ensures Inv(Step(h, op), lo, hi)
    ensures Bytes(h.tiles, StrandedBytes) <= Bytes(Step(h, op).tiles, StrandedBytes)
  {
    hide Tiling, Bytes, FreeMatches, SumsMatch, TileOk, Dealloc, Alloc;
    match op
    case OpAlloc(l) => AllocKeeps(h, lo, hi, l);
    case OpFree(p, l) =>
      DeallocKeeps(h, lo, hi, p, l);
      DeallocStranded(h, lo, hi, p, l);
  }

  /** `trace` is a run from `trace[0]`: each state follows from the one before by `ops`. */
  ghost predicate Run(trace: seq<Heap>, ops: seq<Op>) {
    && |trace| == |ops| + 1
    && forall i :: 0 <= i < |ops| ==>
         |trace[i].cached| == CLASSES && Legal(trace[i], ops[i])
         && trace[i + 1] == Step(trace[i], ops[i])
  }

  /** Every state of every run satisfies the invariant, and stranded bytes never come back. */
  lemma {:induction false} RunKeeps(trace: seq<Heap>, ops: seq<Op>, lo: nat, hi: nat, i: nat)
    requires Run(trace, ops) && Inv(trace[0], lo, hi) && i <= |ops|
    ensures Inv(trace[i], lo, hi)
    ensures Bytes(trace[0].tiles, StrandedBytes) <= Bytes(trace[i].tiles, StrandedBytes)
  {
    hide Inv, Bytes, Step;
    if i > 0 {
      RunKeeps(trace, ops, lo, hi, i - 1);
      StepKeeps(trace[i - 1], lo, hi, ops[i - 1]);
    }
  }

  /** Heap accounting in every reachable state: free list, class lists, live blocks and stranded
      gaps add up to the heap. */
  lemma Accounting(trace: seq<Heap>, ops: seq<Op>, lo: nat, hi: nat, i: nat)
    requires 0 < lo && lo % NODE_ALIGN == 0 && lo + NODE_SIZE <= hi < TWO_64
    requires Run(trace, ops) && trace[0] == Init(lo, hi) && i <= |ops|
    ensures |trace[i].cached| == CLASSES
    ensures hi - lo == SizeSum(trace[i].free) + CachedSum(trace[i].cached, CLASSES)
                       + Bytes(trace[i].tiles, LiveBytes) + Bytes(trace[i].tiles, StrandedBytes)
  {
    hide Tiling, Step, Bytes;
    InitOk(lo, hi);
    RunKeeps(trace, ops, lo, hi, i);
    TilingTotal(trace[i].tiles, lo, hi);
  }

  /** In every reachable state: free regions, cached blocks and live blocks lie in the heap and are
      pairwise disjoint, and every live block is aligned and large enough for its layout. */
  lemma Disjointness(trace: seq<Heap>, ops: seq<Op>, lo: nat, hi: nat, i: nat, t: Tile, u: Tile)
    requires 0 < lo && lo % NODE_ALIGN == 0 && lo + NODE_SIZE <= hi < TWO_64
    requires Run(trace, ops) && trace[0] == Init(lo, hi) && i <= |ops|
    requires t in trace[i].tiles && u in trace[i].tiles && t != u
    ensures Apart(t, u) && lo <= t.start && t.start + t.size <= hi
    ensures t.kind.Live? ==>
              ValidLayout(t.kind.layout) && t.start % t.kind.layout.align == 0
              && t.kind.layout.size <= t.size
    ensures t.kind.Free? ==> Region(t.start, t.size) in trace[i].free
    ensures t.kind.Cached? ==> t.kind.class_ < |trace[i].cached| && t.start in trace[i].cached[t.kind.class_]
  {
    hide Tiling, Step, Bytes, SizeSum, CachedSum, ListIndex, BLOCK_SIZES;
    InitOk(lo, hi);
    RunKeeps(trace, ops, lo, hi, i);
    TilesApart(trace[i].tiles, lo, hi, t, u);
    TileInside(trace[i].tiles, lo, hi, t);
    if t.kind.Live? {
      LargeEnough(t.start, t.size, t.kind.layout);
    }
  }
}
