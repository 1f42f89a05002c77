/** The allocator's lists as they lie in memory: nodes inside the free and cached blocks themselves. */
module HeapMemory {
  import opened Words
  import opened HeapModel
  import opened HeapTiles
  import opened HeapRuns

  /** Memory as 64-bit words by address. */
  type WordMap = map<nat, nat>

  function Put(m: WordMap, a: nat, v: nat): WordMap {
    m[a := v]
  }

  // ---- The free list in memory ----

  /** The address in the `next` field before region `i`; zero at the end of the list. */
  function Link(rs: seq<Region>, i: nat): nat {
    if i < |rs| then rs[i].start else 0
  }

  /** A node holds its region's size, and eight bytes later the address of the next node. */
  ghost predicate NodeAt(m: WordMap, r: Region, next: nat) {
    r.start in m && r.start + 8 in m && m[r.start] == r.size && m[r.start + 8] == next
  }

  /** The list that starts at `head` represents the regions `rs`, in order. */
  ghost predicate ListAt(m: WordMap, head: nat, rs: seq<Region>) {
    && head == Link(rs, 0)
    && forall i :: 0 <= i < |rs| ==> NodeAt(m, rs[i], Link(rs, i + 1))
  }

  /** Nodes do not overlap. */
  ghost predicate Clear(a: nat, b: nat) {
    a + NODE_SIZE <= b || b + NODE_SIZE <= a
  }

  ghost predicate Spaced(rs: seq<Region>) {
    && (forall i :: 0 <= i < |rs| ==> rs[i].start > 0)
    && (forall i, j :: 0 <= i < j < |rs| ==> Clear(rs[i].start, rs[j].start))
  }

  ghost predicate ClearOf(a: nat, rs: seq<Region>) {
    forall i :: 0 <= i < |rs| ==> Clear(a, rs[i].start)
  }

  // ---- The class lists in memory ----

  function ChainLink(ps: seq<nat>, i: nat): nat {
    if i < |ps| then ps[i] else 0
  }

  /** A cached block's first word is the address of the next one. */
  ghost predicate ChainAt(m: WordMap, head: nat, ps: seq<nat>) {
    && head == ChainLink(ps, 0)
    && forall i :: 0 <= i < |ps| ==> ps[i] in m && m[ps[i]] == ChainLink(ps, i + 1)
  }

  // ---- Writes elsewhere ----

  ghost predicate SameExcept(m: WordMap, e: WordMap, words: set<nat>) {
    e.Keys == m.Keys && forall a :: a in m && a !in words ==> e[a] == m[a]
  }

  lemma ListElsewhere(m: WordMap, e: WordMap, words: set<nat>, head: nat, rs: seq<Region>)
    requires ListAt(m, head, rs) && SameExcept(m, e, words)
    requires forall i :: 0 <= i < |rs| ==> rs[i].start !in words && rs[i].start + 8 !in words
    ensures ListAt(e, head, rs)
  {}

  lemma ChainElsewhere(m: WordMap, e: WordMap, words: set<nat>, head: nat, ps: seq<nat>)
    requires ChainAt(m, head, ps) && SameExcept(m, e, words)
    requires forall i :: 0 <= i < |ps| ==> ps[i] !in words
    ensures ChainAt(e, head, ps)
  {}

  lemma PushedNode(m: WordMap, head: nat, rs: seq<Region>, r: Region, i: nat)
    requires ListAt(m, head, rs) && ClearOf(r.start, rs) && i < |rs|
    ensures NodeAt(Put(Put(m, r.start, r.size), r.start + 8, head), rs[i], Link(rs, i + 1))
  {
    hide Link;
    assert NodeAt(m, rs[i], Link(rs, i + 1)) && Clear(r.start, rs[i].start);
  }

  lemma NewNode(m: WordMap, head: nat, r: Region)
    ensures NodeAt(Put(Put(m, r.start, r.size), r.start + 8, head), r, head)
  {}

  /** `add_free_region`: a new node in front. */
  lemma ListPush(m: WordMap, head: nat, rs: seq<Region>, r: Region)
    requires ListAt(m, head, rs) && ClearOf(r.start, rs) && r.start in m && r.start + 8 in m
    ensures ListAt(Put(Put(m, r.start, r.size), r.start + 8, head), r.start, [r] + rs)
  {
    hide Put, NodeAt, ClearOf;
    var e := Put(Put(m, r.start, r.size), r.start + 8, head);
    var more := [r] + rs;
    NewNode(m, head, r);
    forall i | 0 <= i < |more| ensures NodeAt(e, more[i], Link(more, i + 1)) {
      if i > 0 {
        PushedNode(m, head, rs, r, i - 1);
        assert Link(more, i + 1) == Link(rs, i);
      } else {
        assert Link(more, 1) == head;
      }
    }
  }

  lemma RemoveAtIndex(rs: seq<Region>, k: nat, i: nat)
    requires k < |rs| && i < |rs| - 1
    ensures |RemoveAt(rs, k)| == |rs| - 1 && RemoveAt(rs, k)[i] == rs[if i < k then i else i + 1]
    ensures Link(RemoveAt(rs, k), i + 1) == Link(rs, if i + 1 < k then i + 1 else i + 2)
  {}

  lemma RemoveAtFirst(rs: seq<Region>)
    requires rs != []
    ensures RemoveAt(rs, 0) == rs[1..]
  {}

  /** A node away from a written word, and the node whose `next` it is. */
  lemma NodeElsewhere(m: WordMap, a: nat, v: nat, r: Region, link: nat)
    requires NodeAt(m, r, link) && r.start != a && r.start + 8 != a
    ensures NodeAt(Put(m, a, v), r, link)
  {}

  lemma NodeRelinked(m: WordMap, r: Region, link: nat, v: nat)
    requires NodeAt(m, r, link)
    ensures NodeAt(Put(m, r.start + 8, v), r, v)
  {}

  lemma UnlinkFirst(m: WordMap, head: nat, rs: seq<Region>)
    requires ListAt(m, head, rs) && rs != []
    ensures rs[0].start + 8 in m && ListAt(m, m[rs[0].start + 8], RemoveAt(rs, 0))
  {
    hide NodeAt, RemoveAt;
    CurrentLink(m, head, rs, 0);
    var less := RemoveAt(rs, 0);
    assert |less| == |rs| - 1 && less == rs[1..] by { RemoveAtFirst(rs); }
    forall i | 0 <= i < |less| ensures NodeAt(m, less[i], Link(less, i + 1)) {
      RemoveAtIndex(rs, 0, i);
    }
  }

  lemma UnlinkedNode(m: WordMap, head: nat, rs: seq<Region>, k: nat, i: nat)
    requires ListAt(m, head, rs) && Spaced(rs) && 0 < k < |rs| && i < |rs| - 1
    ensures var less := RemoveAt(rs, k);
            |less| == |rs| - 1 && NodeAt(Put(m, rs[k - 1].start + 8, Link(rs, k + 1)), less[i], Link(less, i + 1))
  {
    hide NodeAt, RemoveAt, Put, Spaced, Link;
    var j := if i < k then i else i + 1;
    RemoveAtIndex(rs, k, i);
    assert NodeAt(m, rs[j], Link(rs, j + 1));
    if i == k - 1 {
      NodeRelinked(m, rs[j], Link(rs, j + 1), Link(rs, k + 1));
    } else {
      SpacedClear(rs, k - 1, j);
      NodeElsewhere(m, rs[k - 1].start + 8, Link(rs, k + 1), rs[j], Link(rs, j + 1));
    }
  }

  lemma UnlinkLater(m: WordMap, head: nat, rs: seq<Region>, k: nat)
    requires ListAt(m, head, rs) && Spaced(rs) && 0 < k < |rs|
    ensures ListAt(Put(m, rs[k - 1].start + 8, Link(rs, k + 1)), head, RemoveAt(rs, k))
  {
    hide NodeAt, RemoveAt, Put, Spaced;
    RemoveAtIndex(rs, k, 0);
    forall i | 0 <= i < |rs| - 1
      ensures NodeAt(Put(m, rs[k - 1].start + 8, Link(rs, k + 1)), RemoveAt(rs, k)[i], Link(RemoveAt(rs, k), i + 1))
    {
      UnlinkedNode(m, head, rs, k, i);
    }
  }

  lemma SpacedClear(rs: seq<Region>, i: nat, j: nat)
    requires Spaced(rs) && i < |rs| && j < |rs| && i != j
    ensures Clear(rs[i].start, rs[j].start)
  {
    assert Clear(rs[if i < j then i else j].start, rs[if i < j then j else i].start);
  }

  lemma CurrentLink(m: WordMap, head: nat, rs: seq<Region>, k: nat)
    requires ListAt(m, head, rs) && k < |rs|
    ensures rs[k].start + 8 in m && m[rs[k].start + 8] == Link(rs, k + 1)
  {
    assert NodeAt(m, rs[k], Link(rs, k + 1));
  }

  /** Unlinking node `k`: the node before it, or the head, takes over its `next`. */
  lemma ListUnlink(m: WordMap, head: nat, rs: seq<Region>, k: nat)
    requires ListAt(m, head, rs) && Spaced(rs) && k < |rs|
    ensures rs[k].start + 8 in m
    ensures k == 0 ==> ListAt(m, m[rs[k].start + 8], RemoveAt(rs, k))
    ensures k > 0 ==>
              rs[k - 1].start + 8 in m
              && ListAt(Put(m, rs[k - 1].start + 8, m[rs[k].start + 8]), head, RemoveAt(rs, k))
  {
    hide ListAt, RemoveAt;
    CurrentLink(m, head, rs, k);
    if k == 0 {
      UnlinkFirst(m, head, rs);
    } else {
      CurrentLink(m, head, rs, k - 1);
      UnlinkLater(m, head, rs, k);
    }
  }

  // ---- Separation, from the tiling ----

  ghost predicate WordsPresent(m: WordMap, lo: nat, hi: nat) {
    forall a {:trigger a in m} :: lo <= a && a + 8 <= hi && a % 8 == 0 ==> a in m
  }

  /** Blocks of at least a node's size that are different tiles have room for a node each. */
  lemma TilesClear(h: Heap, lo: nat, hi: nat, t: Tile, u: Tile)
    requires Inv(h, lo, hi) && t in h.tiles && u in h.tiles && t != u && t.size >= NODE_SIZE && u.size >= NODE_SIZE
    ensures Clear(t.start, u.start)
  {
    TilesApart(h.tiles, lo, hi, t, u);
  }

  /** A live or cached tile's node is clear of the free list. */
  lemma ClearOfFree(h: Heap, lo: nat, hi: nat, t: Tile)
    requires Inv(h, lo, hi) && t in h.tiles && t.size >= NODE_SIZE && !t.kind.Free?
    ensures ClearOf(t.start, h.free)
  {
    hide Tiling, CachedMatches, SumsMatch;
    forall i | 0 <= i < |h.free| ensures Clear(t.start, h.free[i].start) {
      var u := Tile(h.free[i].start, h.free[i].size, Free);
      assert TileOk(u);
      TilesClear(h, lo, hi, t, u);
    }
  }

  /** A tile that is not cached in class `c` is clear of that class list. */
  lemma ClearOfCached(h: Heap, lo: nat, hi: nat, t: Tile, c: nat)
    requires Inv(h, lo, hi) && t in h.tiles && t.size >= NODE_SIZE && c < CLASSES && t.kind != Cached(c)
    ensures forall i :: 0 <= i < |h.cached[c]| ==> Clear(t.start, h.cached[c][i])
  {
    hide Tiling, FreeMatches, SumsMatch, BLOCK_SIZES;
    forall i | 0 <= i < |h.cached[c]| ensures Clear(t.start, h.cached[c][i]) {
      var u := Tile(h.cached[c][i], ClassFootprint(c), Cached(c));
      assert h.cached[c][i] in h.cached[c];
      assert u in h.tiles;
      TilesClear(h, lo, hi, t, u);
    }
  }

  lemma LiveSize(t: Tile)
    requires TileOk(t) && (t.kind.Live? || t.kind.Cached? || t.kind.Free?)
    ensures t.size >= NODE_SIZE && t.start % NODE_ALIGN == 0
  {
    if t.kind.Live? && ListIndex(t.kind.layout).None? {
      AdjustedAligned(t.kind.layout);
    }
  }

  /** A word inside one of the regions. */
  ghost predicate InRegions(a: nat, rs: seq<Region>) {
    exists j :: 0 <= j < |rs| && rs[j].start <= a && a + 8 <= rs[j].start + rs[j].size
  }

  ghost predicate SameOutsideRegions(m: WordMap, e: WordMap, rs: seq<Region>) {
    e.Keys == m.Keys && forall a :: a in m && !InRegions(a, rs) ==> e[a] == m[a]
  }

  /** A cached block is not in the free list, so writes to free regions leave the class lists alone. */
  lemma CachedOutsideFree(h: Heap, lo: nat, hi: nat, m: WordMap, e: WordMap, head: nat, c: nat)
    requires Inv(h, lo, hi) && c < CLASSES && ChainAt(m, head, h.cached[c]) && SameOutsideRegions(m, e, h.free)
    ensures ChainAt(e, head, h.cached[c])
  {
    hide Tiling, SumsMatch, BLOCK_SIZES;
    forall i | 0 <= i < |h.cached[c]| ensures !InRegions(h.cached[c][i], h.free) {
      var p := h.cached[c][i];
      assert p in h.cached[c];
      var t := Tile(p, ClassFootprint(c), Cached(c));
      forall j | 0 <= j < |h.free| ensures !(h.free[j].start <= p && p + 8 <= h.free[j].start + h.free[j].size) {
        assert h.free[j] in h.free;
        TilesApart(h.tiles, lo, hi, t, Tile(h.free[j].start, h.free[j].size, Free));
      }
    }
  }

  /** The lists in memory are those of the heap. */
  ghost predicate Represents(m: WordMap, head: nat, heads: seq<nat>, h: Heap) {
    && ListAt(m, head, h.free) && |heads| == |h.cached| == CLASSES
    && forall c :: 0 <= c < CLASSES ==> ChainAt(m, heads[c], h.cached[c])
  }

  ghost predicate RegionsApart(r: Region, q: Region) {
    r.start + r.size <= q.start || q.start + q.size <= r.start
  }

  ghost predicate RegionsOk(rs: seq<Region>) {
    && (forall i :: 0 <= i < |rs| ==> rs[i].start > 0 && rs[i].size >= NODE_SIZE && rs[i].start % NODE_ALIGN == 0)
    && (forall i, j :: 0 <= i < j < |rs| ==> RegionsApart(rs[i], rs[j]))
  }

  lemma OkSpaced(rs: seq<Region>)
    requires RegionsOk(rs)
    ensures Spaced(rs)
  {
    forall i, j | 0 <= i < j < |rs| ensures Clear(rs[i].start, rs[j].start) {
      assert RegionsApart(rs[i], rs[j]);
    }
  }

  ghost predicate RegionsPresent(m: WordMap, rs: seq<Region>) {
    forall a, i {:trigger a in m, rs[i]} ::
      0 <= i < |rs| && rs[i].start <= a && a + 8 <= rs[i].start + rs[i].size && a % 8 == 0 ==> a in m
  }

  lemma FreeRegionsOk(h: Heap, lo: nat, hi: nat, m: WordMap)
    requires Inv(h, lo, hi) && WordsPresent(m, lo, hi)
    ensures RegionsOk(h.free) && RegionsPresent(m, h.free)
  {
    hide Tiling, SumsMatch, CachedMatches;
    forall i | 0 <= i < |h.free|
      ensures h.free[i].size >= NODE_SIZE && h.free[i].start % NODE_ALIGN == 0
      ensures lo <= h.free[i].start && h.free[i].start + h.free[i].size <= hi
    {
      var t := Tile(h.free[i].start, h.free[i].size, Free);
      assert h.free[i] in h.free;
      assert TileOk(t);
      TileInside(h.tiles, lo, hi, t);
    }
    forall i, j | 0 <= i < j < |h.free| ensures RegionsApart(h.free[i], h.free[j]) {
      assert h.free[i] in h.free && h.free[j] in h.free;
      TilesApart(h.tiles, lo, hi, Tile(h.free[i].start, h.free[i].size, Free),
                 Tile(h.free[j].start, h.free[j].size, Free));
    }
  }

  /** The outcome of `allocate` on the list `rs`. */
  ghost function FallbackResult(rs: seq<Region>, request: Layout): AllocResult
    requires ValidLayout(request)
  {
    match Adjusted(request)
    case None => Panic
    case Some(sa) =>
      AdjustedAligned(request);
      match FindRegion(rs, sa.size, sa.align, 0)
      case NotFound => Null
      case Panics => Panic
      case Found(k, start) => Block(start)
  }

  /** The list after `allocate`. */
  ghost function FallbackFree(rs: seq<Region>, request: Layout): seq<Region>
    requires ValidLayout(request)
  {
    match Adjusted(request)
    case None => rs
    case Some(sa) =>
      AdjustedAligned(request);
      match FindRegion(rs, sa.size, sa.align, 0)
      case NotFound => rs
      case Panics => rs
      case Found(k, start) => Tail(rs[k], start, sa.size) + RemoveAt(rs, k)
  }

  class FixedSizeBlockAllocator {
    var mem: WordMap
    var head: nat            // the fallback list's first node, zero for none
    var listHeads: seq<nat>  // the size-class lists' first nodes
    ghost var heap: Heap
    ghost const lo: nat
    ghost const hi: nat

    ghost predicate Valid()
      reads this
    {
      Inv(heap, lo, hi) && WordsPresent(mem, lo, hi) && Represents(mem, head, listHeads, heap)
    }

    /** `add_free_region`. Its two run-time assertions are its preconditions, so no caller of the
        allocator can make them fail. */
    method AddFreeRegion(addr: nat, size: nat)
      requires addr % NODE_ALIGN == 0 && size >= NODE_SIZE
      requires addr in mem && addr + 8 in mem
      modifies this`mem, this`head
      ensures mem == Put(Put(old(mem), addr, size), addr + 8, old(head)) && head == addr
    {
      mem := Put(Put(mem, addr, size), addr + 8, head);
      head := addr;
    }

    /** `find_region`: walks the list and unlinks the first region that fits. */
    method FindFit(size: nat, align: nat, ghost rs: seq<Region>) returns (s: Search, r: Region)
      requires IsPow2(align) && ListAt(mem, head, rs) && RegionsOk(rs)
      modifies this`mem, this`head
      ensures s == FindRegion(rs, size, align, 0)
      ensures !s.Found? ==> mem == old(mem) && head == old(head)
      ensures s.Found? ==>
                && s.index < |rs| && r == rs[s.index] && ListAt(mem, head, RemoveAt(rs, s.index))
                && SameOutsideRegions(old(mem), mem, rs)
    {
      hide ListAt, SameOutsideRegions, RegionsOk;
      ListHead(mem, head, rs);
      r := Region(0, 0);
      var prev, current, k := 0, head, 0;
      while current != 0
        invariant k <= |rs| && current == Link(rs, k) && mem == old(mem) && head == old(head)
        invariant k > 0 ==> prev == rs[k - 1].start
        invariant FindRegion(rs, size, align, k) == FindRegion(rs, size, align, 0)
        decreases |rs| - k
      {
        CurrentNode(mem, head, rs, k);
        r := Region(current, mem[current]);
        match AllocFromRegion(r, size, align)
        case Overflows => return Panics, r;
        case FitsAt(start) =>
          var next := mem[current + 8];
          if k == 0 {
            head := next;
          } else {
            mem := Put(mem, prev + 8, next);
          }
          mem := Put(mem, current + 8, 0);
          Unlinked(old(mem), old(head), rs, k);
          return Found(k, start), r;
        case NoFit =>
          prev := current;
          current := mem[current + 8];
          k := k + 1;
      }
      ListEnd(rs, k);
      s := NotFound;
    }

    /** `LinkedListAllocator::allocate`. */
    method Allocate(request: Layout, ghost rs: seq<Region>) returns (r: AllocResult)
      requires ValidLayout(request) && ListAt(mem, head, rs) && RegionsOk(rs) && RegionsPresent(mem, rs)
      modifies this`mem, this`head
      ensures r == FallbackResult(rs, request)
      ensures ListAt(mem, head, FallbackFree(rs, request)) && SameOutsideRegions(old(mem), mem, rs)
    {
      hide ListAt, SameOutsideRegions, RegionsOk, RegionsPresent, FindRegion, AllocFromRegion, IsPow2, RemoveAt,
           RoundUp;
      SameRegionsRefl(mem, rs);
      var adjusted := Adjusted(request);
      if adjusted.None? {
        return Panic;
      }
      AdjustedAligned(request);
      var size := adjusted.value.size;
      var s, region := FindFit(size, adjusted.value.align, rs);
      match s
      case NotFound => return Null;
      case Panics => return Panic;
      case Found(k, start) =>
        FitBounds(rs, request, k, start);
        var end := start + size;
        var excess := region.start + region.size - end;
        if excess > 0 {
          TailPushed(old(mem), mem, head, rs, k, end, excess);
          AddFreeRegion(end, excess);
        } else {
          assert [] + RemoveAt(rs, k) == RemoveAt(rs, k);
        }
        return Block(start);
    }

    constructor (start: nat, size: nat, m: WordMap)
      requires 0 < start && start % NODE_ALIGN == 0 && size >= NODE_SIZE && start + size < TWO_64
      requires WordsPresent(m, start, start + size)
      ensures Valid() && lo == start && hi == start + size && heap == Init(start, start + size)
    {
      mem, head, listHeads := m, 0, seq(CLASSES, _ => 0);
      lo, hi := start, start + size;
      heap := Init(start, start + size);
      new;
      hide Inv, Tiling, TileOk;
      InitOk(start, start + size);
      assert start in m && start + 8 in m;
      ListPush(mem, 0, [], Region(start, size));
      AddFreeRegion(start, size);
    }

    /** `alloc`: the lists in memory follow the heap model step by step. */
    method Alloc(l: Layout) returns (r: AllocResult)
      requires Valid() && ValidLayout(l)
      modifies this
      ensures Valid() && (heap, r) == HeapRuns.Alloc(old(heap), l)
    {
      hide Inv, Represents, WordsPresent, BLOCK_SIZES, TakeCached, Fallback;
      ghost var h, m := heap, mem;
      AllocKeeps(h, lo, hi, l);
      RepresentsLists(mem, head, listHeads, h);
      match ListIndex(l) {
        case Some(c) =>
          ClassLayoutOk(c);
          ClassHead(h, lo, hi, mem, listHeads[c], c);
          if listHeads[c] != 0 {
            var p := listHeads[c];
            TakeCachedRepresents(h, lo, hi, mem, head, listHeads, c, l);
            listHeads := listHeads[c := mem[p]];
            mem := Put(mem, p, 0);
            heap := TakeCached(heap, c, l);
            r := Block(p);
          } else {
            FreeRegionsOk(h, lo, hi, mem);
            r := Allocate(ClassLayout(c), h.free);
            heap := Fallback(h, ClassLayout(c), l).0;
            FallbackRepresents(h, lo, hi, m, mem, old(head), head, listHeads, ClassLayout(c), l);
          }
        case None =>
          FreeRegionsOk(h, lo, hi, mem);
          r := Allocate(l, h.free);
          heap := Fallback(h, l, l).0;
          FallbackRepresents(h, lo, hi, m, mem, old(head), head, listHeads, l, l);
      }
    }

    /** `dealloc` of a live block. */
    method Dealloc(p: nat, l: Layout)
      requires Valid() && IsLive(heap, p, l)
      modifies this
      ensures Valid() && heap == HeapRuns.Dealloc(old(heap), p, l)
    {
      hide Inv, Represents, WordsPresent, BLOCK_SIZES, HeapRuns.Dealloc;
      ghost var h := heap;
      DeallocKeeps(h, lo, hi, p, l);
      RepresentsLists(mem, head, listHeads, h);
      LiveBlock(h, lo, hi, mem, p, l);
      match ListIndex(l) {
        case Some(c) =>
          ToCacheRepresents(h, lo, hi, mem, head, listHeads, p, l, c);
          mem := Put(mem, p, listHeads[c]);
          listHeads := listHeads[c := p];
        case None =>
          ToFreeRepresents(h, lo, hi, mem, head, listHeads, p, l);
          AdjustedAligned(l);
          AddFreeRegion(p, Adjusted(l).value.size);
      }
      heap := HeapRuns.Dealloc(h, p, l);
    }

    /** A program stores to a word of a block it owns: no list is disturbed. */
    method UserStore(p: nat, l: Layout, a: nat, v: nat)
      requires Valid() && IsLive(heap, p, l) && p <= a && a + 8 <= p + Footprint(l) && a in mem
      modifies this`mem
      ensures Valid() && mem == Put(old(mem), a, v)
    {
      hide Inv, Represents, WordsPresent, BLOCK_SIZES;
      UserStoreRepresents(heap, lo, hi, mem, head, listHeads, p, l, a, v);
      mem := Put(mem, a, v);
    }
  }

  lemma ListHead(m: WordMap, head: nat, rs: seq<Region>)
    requires ListAt(m, head, rs)
    ensures head == Link(rs, 0)
  {}

  lemma ListEnd(rs: seq<Region>, k: nat)
    requires RegionsOk(rs) && Link(rs, k) == 0
    ensures k >= |rs|
  {}

  lemma CurrentNode(m: WordMap, head: nat, rs: seq<Region>, k: nat)
    requires ListAt(m, head, rs) && RegionsOk(rs) && Link(rs, k) != 0
    ensures k < |rs| && NodeAt(m, rs[k], Link(rs, k + 1))
  {}

  /** Memory after node `k` was unlinked and its own `next` cleared. */
  ghost function UnlinkedMem(m: WordMap, rs: seq<Region>, k: nat): WordMap
    requires k < |rs|
  {
    Put(if k == 0 then m else Put(m, rs[k - 1].start + 8, Link(rs, k + 1)), rs[k].start + 8, 0)
  }

  lemma Unlinked(m: WordMap, head: nat, rs: seq<Region>, k: nat)
    requires ListAt(m, head, rs) && RegionsOk(rs) && k < |rs|
    ensures ListAt(UnlinkedMem(m, rs, k), if k == 0 then Link(rs, 1) else head, RemoveAt(rs, k))
    ensures SameOutsideRegions(m, UnlinkedMem(m, rs, k), rs)
  {
    hide ListAt, RemoveAt;
    UnlinkedList(m, head, rs, k);
    CurrentNode(m, head, rs, k);
    assert InRegions(rs[k].start + 8, rs);
    if k > 0 {
      CurrentNode(m, head, rs, k - 1);
      assert InRegions(rs[k - 1].start + 8, rs);
    }
  }

  lemma UnlinkedList(m: WordMap, head: nat, rs: seq<Region>, k: nat)
    requires ListAt(m, head, rs) && RegionsOk(rs) && k < |rs|
    ensures ListAt(UnlinkedMem(m, rs, k), if k == 0 then Link(rs, 1) else head, RemoveAt(rs, k))
  {
    hide ListAt, RegionsOk;
    OkSpaced(rs);
    ListUnlink(m, head, rs, k);
    CurrentNode(m, head, rs, k);
    var less := RemoveAt(rs, k);
    var mid := if k == 0 then m else Put(m, rs[k - 1].start + 8, Link(rs, k + 1));
    forall i | 0 <= i < |less| ensures less[i].start != rs[k].start + 8 && less[i].start + 8 != rs[k].start + 8 {
      var j := if i < k then i else i + 1;
      assert less[i] == rs[j];
      assert Clear(rs[if j < k then j else k].start, rs[if j < k then k else j].start);
    }
    ListElsewhere(mid, UnlinkedMem(m, rs, k), {rs[k].start + 8}, if k == 0 then Link(rs, 1) else head, less);
  }

  lemma FoundFits(rs: seq<Region>, size: nat, align: nat, k: nat, start: nat)
    requires IsPow2(align) && align > 0 && FindRegion(rs, size, align, 0) == Found(k, start)
    ensures k < |rs| && rs[k].start <= start && start % align == 0 && start + size <= rs[k].start + rs[k].size
    ensures start + size == rs[k].start + rs[k].size || start + size + NODE_SIZE <= rs[k].start + rs[k].size
  {
    hide FindRegion, IsPow2, ClearBelow;
  }

  lemma FitBounds(rs: seq<Region>, request: Layout, k: nat, start: nat)
    requires ValidLayout(request) && Adjusted(request).Some? && IsPow2(Adjusted(request).value.align)
    requires FindRegion(rs, Adjusted(request).value.size, Adjusted(request).value.align, 0) == Found(k, start)
    ensures var end := start + Adjusted(request).value.size;
            && k < |rs| && rs[k].start <= start && end % NODE_ALIGN == 0 && end <= rs[k].start + rs[k].size
            && (end == rs[k].start + rs[k].size || end + NODE_SIZE <= rs[k].start + rs[k].size)
  {
    hide FindRegion, IsPow2, Adjusted;
    var a := Adjusted(request).value;
    AdjustedAligned(request);
    FoundFits(rs, a.size, a.align, k, start);
    DividesTransitive(start, a.align, NODE_ALIGN);
    SumDivisible(start, a.size);
  }

  lemma SameRegionsRefl(m: WordMap, rs: seq<Region>)
    ensures SameOutsideRegions(m, m, rs)
  {}

  /** The tail of the region a block was cut from becomes the list's first node. */
  lemma TailPushed(m: WordMap, e: WordMap, head: nat, rs: seq<Region>, k: nat, end: nat, excess: nat)
    requires RegionsOk(rs) && RegionsPresent(m, rs) && SameOutsideRegions(m, e, rs) && k < |rs|
    requires rs[k].start <= end && end + excess == rs[k].start + rs[k].size && excess >= NODE_SIZE
             && end % NODE_ALIGN == 0
    requires ListAt(e, head, RemoveAt(rs, k))
    ensures end in e && end + 8 in e
    ensures ListAt(Put(Put(e, end, excess), end + 8, head), end, [Region(end, excess)] + RemoveAt(rs, k))
    ensures SameOutsideRegions(m, Put(Put(e, end, excess), end + 8, head), rs)
  {
    hide ListAt, RegionsPresent, RegionsOk, InRegions;
    WordInRegion(m, rs, k, end);
    WordInRegion(m, rs, k, end + 8);
    var less := RemoveAt(rs, k);
    forall i | 0 <= i < |less| ensures Clear(end, less[i].start) {
      TailClear(rs, k, end, i);
    }
    ListPush(e, head, less, Region(end, excess));
  }

  lemma TailClear(rs: seq<Region>, k: nat, end: nat, i: nat)
    requires RegionsOk(rs) && k < |rs| && rs[k].start <= end && end + NODE_SIZE <= rs[k].start + rs[k].size
             && i < |rs| - 1
    ensures Clear(end, RemoveAt(rs, k)[i].start)
  {
    var j := if i < k then i else i + 1;
    assert RemoveAt(rs, k)[i] == rs[j];
    assert RegionsApart(rs[if j < k then j else k], rs[if j < k then k else j]);
  }

  lemma WordInRegion(m: WordMap, rs: seq<Region>, k: nat, a: nat)
    requires RegionsPresent(m, rs) && k < |rs| && rs[k].start <= a && a + 8 <= rs[k].start + rs[k].size && a % 8 == 0
    ensures a in m && InRegions(a, rs)
  {
    assert rs[k].start <= a;
  }

  // ---- Each step of the heap model, in memory ----

  lemma RepresentsLists(m: WordMap, head: nat, heads: seq<nat>, h: Heap)
    requires Represents(m, head, heads, h)
    ensures ListAt(m, head, h.free) && |heads| == |h.cached| == CLASSES
    ensures forall c :: 0 <= c < CLASSES ==> ChainAt(m, heads[c], h.cached[c])
  {}

  lemma ClassHead(h: Heap, lo: nat, hi: nat, m: WordMap, head: nat, c: nat)
    requires Inv(h, lo, hi) && c < CLASSES && ChainAt(m, head, h.cached[c])
    ensures head != 0 <==> h.cached[c] != []
    ensures head != 0 ==> head == h.cached[c][0] && head in m
  {
    hide Tiling, SumsMatch, FreeMatches, BLOCK_SIZES;
    if h.cached[c] != [] {
      var p := h.cached[c][0];
      TileInside(h.tiles, lo, hi, Tile(p, ClassFootprint(c), Cached(c)));
    }
  }

  lemma TakeCachedRepresents(h: Heap, lo: nat, hi: nat, m: WordMap, head: nat, heads: seq<nat>, c: nat, l: Layout)
    requires Inv(h, lo, hi) && WordsPresent(m, lo, hi) && Represents(m, head, heads, h)
    requires c < CLASSES && h.cached[c] != []
    ensures var p := h.cached[c][0];
            p in m && WordsPresent(Put(m, p, 0), lo, hi)
            && Represents(Put(m, p, 0), head, heads[c := m[p]], TakeCached(h, c, l))
  {
    hide Tiling, SumsMatch, TileOk, BLOCK_SIZES;
    var ps := h.cached[c];
    var p := ps[0];
    var t := Tile(p, ClassFootprint(c), Cached(c));
    var e := Put(m, p, 0);
    assert t in h.tiles;
    ClearOfFree(h, lo, hi, t);
    ListElsewhere(m, e, {p}, head, h.free) by { NotOnNode(p, h.free); }
    forall d | 0 <= d < CLASSES && d != c ensures ChainAt(e, heads[d], h.cached[d]) {
      ClearOfCached(h, lo, hi, t, d);
      assert forall i :: 0 <= i < |h.cached[d]| ==> Clear(p, h.cached[d][i]);
      ChainElsewhere(m, e, {p}, heads[d], h.cached[d]);
    }
    ChainPop(m, heads[c], ps);
  }

  lemma NotOnNode(p: nat, rs: seq<Region>)
    requires ClearOf(p, rs)
    ensures forall i :: 0 <= i < |rs| ==> rs[i].start != p && rs[i].start + 8 != p
  {
    forall i | 0 <= i < |rs| ensures rs[i].start != p && rs[i].start + 8 != p {
      assert Clear(p, rs[i].start);
    }
  }

  lemma ChainPop(m: WordMap, head: nat, ps: seq<nat>)
    requires ChainAt(m, head, ps) && ps != [] && Distinct(ps)
    ensures head == ps[0] && head in m && ChainAt(Put(m, head, 0), m[head], ps[1..])
  {
    var e := Put(m, head, 0);
    var rest := ps[1..];
    forall i | 0 <= i < |rest| ensures rest[i] in e && e[rest[i]] == ChainLink(rest, i + 1) {
      assert rest[i] == ps[i + 1] && ps[0] != ps[i + 1];
    }
  }

  lemma ChainPush(m: WordMap, head: nat, ps: seq<nat>, p: nat)
    requires ChainAt(m, head, ps) && p in m && p !in ps
    ensures ChainAt(Put(m, p, head), p, [p] + ps)
  {
    var e := Put(m, p, head);
    var more := [p] + ps;
    forall i | 0 <= i < |more| ensures more[i] in e && e[more[i]] == ChainLink(more, i + 1) {
      if i > 0 {
        assert more[i] == ps[i - 1];
        assert ChainLink(more, i + 1) == ChainLink(ps, i);
      }
    }
  }

  lemma FallbackRepresents(h: Heap, lo: nat, hi: nat, m: WordMap, e: WordMap, head: nat, head': nat, heads: seq<nat>,
                           request: Layout, l: Layout)
    requires Inv(h, lo, hi) && WordsPresent(m, lo, hi) && Represents(m, head, heads, h) && ValidLayout(request)
    requires ListAt(e, head', FallbackFree(h.free, request)) && SameOutsideRegions(m, e, h.free)
    ensures WordsPresent(e, lo, hi) && Represents(e, head', heads, Fallback(h, request, l).0)
    ensures Fallback(h, request, l).1 == FallbackResult(h.free, request)
  {
    hide Inv, ListAt, ChainAt, FindRegion;
    forall c | 0 <= c < CLASSES ensures ChainAt(e, heads[c], h.cached[c]) {
      CachedOutsideFree(h, lo, hi, m, e, heads[c], c);
    }
  }

  lemma LiveBlock(h: Heap, lo: nat, hi: nat, m: WordMap, p: nat, l: Layout)
    requires Inv(h, lo, hi) && WordsPresent(m, lo, hi) && IsLive(h, p, l)
    ensures p % NODE_ALIGN == 0 && p in m && p + 8 in m && Footprint(l) >= NODE_SIZE
    ensures ListIndex(l).None? ==> Adjusted(l).Some? && Footprint(l) == Adjusted(l).value.size
  {
    hide Tiling, FreeMatches, CachedMatches, SumsMatch, BLOCK_SIZES;
    var t := Tile(p, Footprint(l), Live(l));
    assert TileOk(t);
    LiveSize(t);
    TileInside(h.tiles, lo, hi, t);
    assert p + 8 in m by { assert (p + 8) % 8 == 0; }
  }

  /** A store into a live block leaves every list as it is. */
  lemma UserStoreRepresents(h: Heap, lo: nat, hi: nat, m: WordMap, head: nat, heads: seq<nat>, p: nat, l: Layout,
                            a: nat, v: nat)
    requires Inv(h, lo, hi) && WordsPresent(m, lo, hi) && Represents(m, head, heads, h) && IsLive(h, p, l)
    requires p <= a && a + 8 <= p + Footprint(l) && a in m
    ensures WordsPresent(Put(m, a, v), lo, hi) && Represents(Put(m, a, v), head, heads, h)
  {
    hide Tiling, SumsMatch, BLOCK_SIZES, Footprint;
    var t := Tile(p, Footprint(l), Live(l));
    var e := Put(m, a, v);
    forall i | 0 <= i < |h.free| ensures h.free[i].start != a && h.free[i].start + 8 != a {
      var u := Tile(h.free[i].start, h.free[i].size, Free);
      assert h.free[i] in h.free && TileOk(u);
      TilesApart(h.tiles, lo, hi, t, u);
    }
    ListElsewhere(m, e, {a}, head, h.free);
    forall c | 0 <= c < CLASSES ensures ChainAt(e, heads[c], h.cached[c]) {
      forall i | 0 <= i < |h.cached[c]| ensures h.cached[c][i] != a {
        var u := Tile(h.cached[c][i], ClassFootprint(c), Cached(c));
        assert h.cached[c][i] in h.cached[c];
        TilesApart(h.tiles, lo, hi, t, u);
        TileInside(h.tiles, lo, hi, u);
      }
      ChainElsewhere(m, e, {a}, heads[c], h.cached[c]);
    }
  }

  lemma ToCacheRepresents(h: Heap, lo: nat, hi: nat, m: WordMap, head: nat, heads: seq<nat>, p: nat, l: Layout, c: nat)
    requires Inv(h, lo, hi) && WordsPresent(m, lo, hi) && Represents(m, head, heads, h) && IsLive(h, p, l)
    requires ListIndex(l) == Some(c)
    ensures WordsPresent(Put(m, p, heads[c]), lo, hi)
    ensures Represents(Put(m, p, heads[c]), head, heads[c := p], Dealloc(h, p, l))
  {
    hide Inv, WordsPresent, ListAt, ChainAt, BLOCK_SIZES;
    LiveBlock(h, lo, hi, m, p, l);
    UserStoreRepresents(h, lo, hi, m, head, heads, p, l, p, heads[c]);
    LiveNotCached(h, lo, hi, p, l, c);
    ChainPush(m, heads[c], h.cached[c], p);
  }

  lemma LiveNotCached(h: Heap, lo: nat, hi: nat, p: nat, l: Layout, c: nat)
    requires Inv(h, lo, hi) && IsLive(h, p, l) && c < CLASSES
    ensures p !in h.cached[c]
  {
    hide Tiling, SumsMatch, FreeMatches, BLOCK_SIZES, Footprint;
    if p in h.cached[c] {
      SameStart(h.tiles, lo, hi, Tile(p, Footprint(l), Live(l)), Tile(p, ClassFootprint(c), Cached(c)));
    }
  }

  lemma ToFreeRepresents(h: Heap, lo: nat, hi: nat, m: WordMap, head: nat, heads: seq<nat>, p: nat, l: Layout)
    requires Inv(h, lo, hi) && WordsPresent(m, lo, hi) && Represents(m, head, heads, h) && IsLive(h, p, l)
    requires ListIndex(l) == None
    ensures var e := Put(Put(m, p, Footprint(l)), p + 8, head);
            WordsPresent(e, lo, hi) && Represents(e, p, heads, Dealloc(h, p, l))
  {
    hide Inv, WordsPresent, ListAt, ChainAt, BLOCK_SIZES, Footprint;
    LiveBlock(h, lo, hi, m, p, l);
    var t := Tile(p, Footprint(l), Live(l));
    ClearOfFree(h, lo, hi, t);
    ListPush(m, head, h.free, Region(p, Footprint(l)));
    UserStoreRepresents(h, lo, hi, m, head, heads, p, l, p, Footprint(l));
    UserStoreRepresents(h, lo, hi, Put(m, p, Footprint(l)), head, heads, p, l, p + 8, head);
  }
}
