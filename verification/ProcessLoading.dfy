/** What building a process's address space from an ELF image comes to when the image lies in the lower half
    (`kernel/src/process.rs`). */
module ProcessLoading {
  import opened Words
  import opened PageTables
  import opened CloneTables
  import opened AddressSpaces
  import opened UserMemory
  import opened Bytes
  import opened KernelElf
  import opened LoadModel

  /** A translation with the given flags, or none. */
  predicate Flagged(t: Option<Word>, f: Option<Flags>) {
    match f
    case None => t == None
    case Some(g) => t.Some? && t.value.lo == g.lo && t.value.hi == g.hi
  }

  /** From `m` to `e` those of the pages `first..=last` that were not mapped became mapped with flags
      `f`; nothing else became mapped, and what was mapped before keeps its translation and its bytes. */
  ghost predicate RegionMapped(m: Memory, e: Memory, pml4: nat, first: nat, last: int, f: Flags) {
    forall x :: 0 <= x < LOWER_HALF_END ==>
      if Translate(m, pml4, x).Some? then Translate(e, pml4, x) == Translate(m, pml4, x)
        && UserByte(e, pml4, x) == UserByte(m, pml4, x)
      else Flagged(Translate(e, pml4, x), if first <= x / PAGE_SIZE <= last then Some(f) else None)
  }

  /** Only the tree and frames from the allocator were touched; the upper half of the PML4 was not. */
  ghost predicate Confined(m: Memory, owner: Owner, supply: seq<nat>, e: Memory, owner': Owner, supply': seq<nat>,
                           pml4: nat) {
    && e.Keys == m.Keys && pml4 in m
    && (forall f :: f in supply' ==> f in supply)
    && (forall f :: f in owner' ==> f in owner || f in supply)
    && (forall f :: f in m && f !in owner && f !in supply ==> e[f] == m[f])
    && (forall i :: 256 <= i < 512 ==> e[pml4][i] == m[pml4][i])
  }

  lemma ConfinedTransitive(m: Memory, owner: Owner, supply: seq<nat>, e: Memory, owner': Owner, supply': seq<nat>,
                           g: Memory, owner'': Owner, supply'': seq<nat>, pml4: nat)
    requires Confined(m, owner, supply, e, owner', supply', pml4)
             && Confined(e, owner', supply', g, owner'', supply'', pml4)
    ensures Confined(m, owner, supply, g, owner'', supply'', pml4)
  {}

  lemma GrownConfined(m: Memory, owner: Owner, supply: seq<nat>, e: Memory, owner': Owner, supply': seq<nat>,
                      pml4: nat, path: seq<nat>)
    requires pml4 in m && Grown(m, owner, Range(supply), e, owner', pml4, 0, 256, path)
    requires forall f :: f in supply' ==> f in supply
    ensures Confined(m, owner, supply, e, owner', supply', pml4)
  {
    hide WalkTable;
  }

  /** One more page mapped, to a frame outside the tree. */
  lemma PageMapped(m: Memory, owner: Owner, from: set<nat>, e: Memory, owner': Owner, pml4: nat, page: nat, f: Flags)
    requires Owned(m, owner, pml4, 0, 256) && page * PAGE_SIZE < LOWER_HALF_END
    requires Grown(m, owner, from, e, owner', pml4, 0, 256, PathOf(page * PAGE_SIZE))
    requires Translate(m, pml4, page * PAGE_SIZE) == None && Flagged(Translate(e, pml4, page * PAGE_SIZE), Some(f))
    ensures RegionMapped(m, e, pml4, page, page, f)
  {
    hide Owned, WalkTable, PathOf;
    forall x | 0 <= x < LOWER_HALF_END
      ensures Translate(m, pml4, x).Some? ==>
                Translate(e, pml4, x) == Translate(m, pml4, x)
                && UserByte(e, pml4, x) == UserByte(m, pml4, x)
      ensures Translate(m, pml4, x).None?
              ==> Flagged(Translate(e, pml4, x), if page <= x / PAGE_SIZE <= page then Some(f) else None)
    {
      LowerPath(x);
      PathIdentifiesPage(page * PAGE_SIZE, x);
      assert page * PAGE_SIZE / PAGE_SIZE == page;
      if Translate(m, pml4, x).Some? {
        MappedPage(m, owner, pml4, x);
      }
    }
  }

  /** Writing tables only, with every walk kept, keeps user memory. */
  lemma GrownKeepsUser(m: Memory, owner: Owner, from: set<nat>, e: Memory, owner': Owner, pml4: nat, f: Flags)
    requires Owned(m, owner, pml4, 0, 256) && Grown(m, owner, from, e, owner', pml4, 0, 256, [])
    ensures RegionMapped(m, e, pml4, 1, 0, f)
  {
    hide Owned, WalkTable, PathOf;
    forall x | 0 <= x < LOWER_HALF_END
      ensures Translate(e, pml4, x) == Translate(m, pml4, x)
      ensures Translate(m, pml4, x).Some? ==> UserByte(e, pml4, x) == UserByte(m, pml4, x)
    {
      LowerPath(x);
      if Translate(m, pml4, x).Some? {
        MappedPage(m, owner, pml4, x);
      }
    }
  }

  lemma RegionMappedJoin(m: Memory, e: Memory, g: Memory, pml4: nat, first: nat, last: int, first': nat, last': int,
                         f: Flags)
    requires RegionMapped(m, e, pml4, first, last, f) && RegionMapped(e, g, pml4, first', last', f)
    requires first' > last' || (first' == last + 1 && first <= first')
    ensures RegionMapped(m, g, pml4, first, if first' > last' then last else last', f)
  {
    hide Translate, UserByte;
  }

  lemma PageAlreadyMapped(m: Memory, pml4: nat, page: nat, f: Flags)
    requires page * PAGE_SIZE < LOWER_HALF_END && Translate(m, pml4, page * PAGE_SIZE).Some?
    ensures RegionMapped(m, m, pml4, page, page, f)
  {
    hide WalkTable, PathOf;
    forall x | 0 <= x < LOWER_HALF_END && x / PAGE_SIZE == page ensures Translate(m, pml4, x).Some? {
      PathIdentifiesPage(page * PAGE_SIZE, x);
      assert page * PAGE_SIZE / PAGE_SIZE == page;
    }
  }

  lemma ConfinedRefl(m: Memory, owner: Owner, supply: seq<nat>, pml4: nat)
    requires pml4 in m
    ensures Confined(m, owner, supply, m, owner, supply, pml4)
  {}

  /** A mapped address has a used, table-naming PML4 entry. */
  lemma MappedRoot(m: Memory, owner: Owner, pml4: nat, va: nat)
    requires Owned(m, owner, pml4, 0, 256) && va < LOWER_HALF_END && Translate(m, pml4, va).Some?
    ensures pml4 in m && NamesTable(m[pml4][PathOf(va)[0]]) && PathOf(va)[0] < 256
  {
    LowerPath(va);
  }

  // ---- How many frames ----

  /** The nodes of the tree that maps the pages `first..=last`: the pages and all tables above them. */
  ghost function RegionNodes(first: nat, last: int): set<seq<nat>>
    decreases last + 1
  {
    if last < first then {} else RegionNodes(first, last - 1) + Prefixes(PathOf(last * PAGE_SIZE))
  }

  lemma RegionNodesNone(first: nat)
    ensures RegionNodes(first, first - 1) == {}
  {}

  /** Every frame taken became a node, and the nodes are now those before and `nodes`. */
  ghost predicate Filled(owner: Owner, supply: seq<nat>, owner': Owner, supply': seq<nat>, nodes: set<seq<nat>>) {
    |owner'| + |supply'| == |owner| + |supply| && owner'.Values == owner.Values + nodes
  }

  /** The tree with `nodes` would need more frames than there are. */
  ghost predicate TooFew(owner: Owner, supply: seq<nat>, nodes: set<seq<nat>>) {
    |owner| + |supply| < |owner.Values + nodes|
  }

  lemma FilledRefl(owner: Owner, supply: seq<nat>, nodes: set<seq<nat>>)
    requires nodes <= owner.Values
    ensures Filled(owner, supply, owner, supply, nodes)
  {}

  lemma FilledTwice(owner: Owner, supply: seq<nat>, owner': Owner, supply': seq<nat>, nodes: set<seq<nat>>,
                    owner'': Owner, supply'': seq<nat>, more: set<seq<nat>>)
    requires Filled(owner, supply, owner', supply', nodes) && Filled(owner', supply', owner'', supply'', more)
    ensures Filled(owner, supply, owner'', supply'', nodes + more)
  {
    assert owner.Values + nodes + more == owner.Values + (nodes + more);
  }

  lemma StillTooFew(owner: Owner, supply: seq<nat>, owner': Owner, supply': seq<nat>, nodes: set<seq<nat>>,
                    more: set<seq<nat>>, all: set<seq<nat>>)
    requires Filled(owner, supply, owner', supply', nodes) && TooFew(owner', supply', more) && nodes + more <= all
    ensures TooFew(owner, supply, all)
  {
    SubsetSize(owner'.Values + more, owner.Values + all);
  }

  lemma SubsetSize(a: set<seq<nat>>, b: set<seq<nat>>)
    requires a <= b
    ensures |a| <= |b|
  {
    assert b == a + (b - a);
  }

  /** A page that cannot be mapped: no frame for it, or none for a table above it. */
  lemma PageTooFew(m: Memory, owner: Owner, supply: seq<nat>, e: Memory, owner': Owner, path: seq<nat>, lost: nat)
    requires Tree(m, owner) && Tree(e, owner') && |path| == 4 && !Recorded(owner', path)
    requires owner.Values <= owner'.Values <= owner.Values + Prefixes(path)
    requires |owner'| + lost == |owner| + |supply| && lost <= 1 && (lost == 1 ==> !Recorded(owner', path[..3]))
    ensures TooFew(owner, supply, Prefixes(path))
  {
    hide Tree;
    TreeCount(e, owner');
    var all := owner.Values + Prefixes(path);
    if lost == 0 {
      assert owner'.Values + {path} <= all;
      SubsetSize(owner'.Values + {path}, all);
    } else {
      assert |path[..3]| == 3 && owner'.Values + {path} + {path[..3]} <= all;
      SubsetSize(owner'.Values + {path} + {path[..3]}, all);
    }
  }

  /** The nodes on the way to a mapped page are there, and a page that is not mapped is none. */
  lemma MappedNodes(m: Memory, owner: Owner, pml4: nat, va: nat)
    requires Owned(m, owner, pml4, 0, 256) && Tree(m, owner) && va < LOWER_HALF_END && Translate(m, pml4, va).Some?
    ensures Prefixes(PathOf(va)) <= owner.Values
  {
    hide Owned, Tree, WalkTable, PathOf;
    MappedPage(m, owner, pml4, va);
    RecordedOne(owner, Translate(m, pml4, va).value.frame);
    PathClosed(m, owner, PathOf(va));
  }

  lemma UnmappedNode(m: Memory, owner: Owner, pml4: nat, va: nat)
    requires Owned(m, owner, pml4, 0, 256) && Tree(m, owner) && va < LOWER_HALF_END && Translate(m, pml4, va).None?
    ensures !Recorded(owner, PathOf(va))
  {
    hide PathOf, Owned, Tree, WalkTable, Recorded;
    LowerPath(va);
    if Recorded(owner, PathOf(va)) {
      RecordedWalk(m, owner, pml4, 0, 256, PathOf(va));
    }
  }

  lemma PageFilled(m: Memory, owner: Owner, supply: seq<nat>, owner': Owner, supply': seq<nat>, path: seq<nat>)
    requires Tree(m, owner') && |path| == 4 && Recorded(owner', path) && |owner'| + |supply'| == |owner| + |supply|
    requires owner.Values <= owner'.Values <= owner.Values + Prefixes(path)
    ensures Filled(owner, supply, owner', supply', Prefixes(path))
  {
    hide Tree;
    PathClosed(m, owner', path);
  }

  // ---- Regions of the lower half ----

  /** Some pages were asked for: they are mapped, and the tree has their nodes; or there were too few frames. */
  ghost predicate Extended(m: Memory, owner: Owner, supply: seq<nat>, r: Mapping, owner': Owner, pml4: nat,
                           first: nat, last: int, f: Flags, nodes: set<seq<nat>>)
  {
    && TreeReady(r.mem, r.supply, owner', pml4, 0, 256)
    && Confined(m, owner, supply, r.mem, owner', r.supply, pml4)
    && (r.ok ==> RegionMapped(m, r.mem, pml4, first, last, f) && Filled(owner, supply, owner', r.supply, nodes))
    && (!r.ok ==> r.supply == [] && TooFew(owner, supply, nodes))
  }

  /** In a tree, `translate_addr` finds what the walk does. */
  lemma LocateLower(m: Memory, owner: Owner, pml4: nat, va: nat)
    requires Owned(m, owner, pml4, 0, 256) && va < LOWER_HALF_END
    ensures var t := Translate(m, pml4, va);
            Locate(m, pml4, PathOf(va)) == if t.None? then Absent else At(t.value.frame)
  {
    hide Owned, PathOf;
    LowerPath(va);
    RootWalk(m, owner, pml4, 0, 256, PathOf(va));
    LocateWalk(m, owner, pml4, 0, 256, pml4, PathOf(va));
  }

  lemma PageExtended(m: Memory, supply: seq<nat>, owner: Owner, pml4: nat, page: nat, f: Flags, r: Mapping)
    returns (owner': Owner)
    requires TreeReady(m, supply, owner, pml4, 0, 256) && pml4 in m && page * PAGE_SIZE < LOWER_HALF_END
    requires r == PageIn(m, supply, pml4, page, f)
    ensures Extended(m, owner, supply, r, owner', pml4, page, page, f, Prefixes(PathOf(page * PAGE_SIZE)))
  {
    hide Owned, Grown, ValidSupply, Confined, RegionMapped, WalkTable, PathOf, Tree, Prefixes, Filled, TooFew, Locate,
         MapPath;
    owner' := owner;
    var path := PathOf(page * PAGE_SIZE);
    ConfinedRefl(m, owner, supply, pml4);
    LowerPath(page * PAGE_SIZE);
    LocateLower(m, owner, pml4, page * PAGE_SIZE);
    if Translate(m, pml4, page * PAGE_SIZE).Some? {
      PageAlreadyMapped(m, pml4, page, f);
      MappedNodes(m, owner, pml4, page * PAGE_SIZE);
      FilledRefl(owner, supply, Prefixes(path));
    } else if supply == [] {
      UnmappedNode(m, owner, pml4, page * PAGE_SIZE);
      PageTooFew(m, owner, supply, m, owner, path, 0);
    } else {
      owner' := NewPageExtended(m, supply, owner, pml4, page, f, r);
    }
  }

  lemma NewPageExtended(m: Memory, supply: seq<nat>, owner: Owner, pml4: nat, page: nat, f: Flags, r: Mapping)
    returns (owner': Owner)
    requires TreeReady(m, supply, owner, pml4, 0, 256) && pml4 in m && page * PAGE_SIZE < LOWER_HALF_END
    requires r == PageIn(m, supply, pml4, page, f) && supply != []
    requires Translate(m, pml4, page * PAGE_SIZE) == None && Locate(m, pml4, PathOf(page * PAGE_SIZE)) == Absent
    ensures Extended(m, owner, supply, r, owner', pml4, page, page, f, Prefixes(PathOf(page * PAGE_SIZE)))
  {
    hide Owned, Grown, ValidSupply, Confined, RegionMapped, WalkTable, PathOf, Tree, Prefixes, Filled, TooFew, Locate,
         MapPath, Recorded, Granted, Linked;
    var path := PathOf(page * PAGE_SIZE);
    LowerPath(page * PAGE_SIZE);
    TakeFrame(m, supply, owner, pml4, 0, 256);
    var w := Word(f.lo, supply[0], f.hi);
    var s := MapPath(m, supply[1..], pml4, path, supply[0], f.lo, f.hi);
    owner' := MapPathGrown(m, supply[1..], owner, pml4, 0, 256, path, w, s);
    GrownConfined(m, owner, supply, s.mem, owner', s.supply, pml4, path);
    if s.result != Mapped {
      PageTooFew(m, owner, supply, s.mem, owner', path, 1);
    } else {
      PageFilled(s.mem, owner, supply, owner', s.supply, path);
      PageMapped(m, owner, Range(supply), s.mem, owner', pml4, page, f);
    }
  }

  lemma {:induction false} ExtendedTwice(m: Memory, owner: Owner, supply: seq<nat>, a: Mapping, owner': Owner,
                                         r: Mapping, owner'': Owner, pml4: nat, page: nat, last: nat, f: Flags,
                                         here: set<seq<nat>>, rest: set<seq<nat>>)
    requires Extended(m, owner, supply, a, owner', pml4, page, page, f, here) && a.ok
    requires Extended(a.mem, owner', a.supply, r, owner'', pml4, page + 1, last, f, rest) && page <= last
    ensures Extended(m, owner, supply, r, owner'', pml4, page, last, f, here + rest)
  {
    hide TreeReady, Confined, RegionMapped, Filled, TooFew;
    ConfinedTransitive(m, owner, supply, a.mem, owner', a.supply, r.mem, owner'', r.supply, pml4);
    if r.ok {
      RegionMappedJoin(m, a.mem, r.mem, pml4, page, page, page + 1, last, f);
      FilledTwice(owner, supply, owner', a.supply, here, owner'', r.supply, rest);
    } else {
      StillTooFew(owner, supply, owner', a.supply, here, rest, here + rest);
    }
  }

  lemma {:induction false} RegionNodesFront(page: nat, last: nat)
    requires page <= last
    ensures RegionNodes(page, last) == Prefixes(PathOf(page * PAGE_SIZE)) + RegionNodes(page + 1, last)
    decreases last
  {
    hide PathOf, Prefixes;
    if page < last {
      RegionNodesFront(page, last - 1);
    } else {
      RegionNodesNone(page);
      RegionNodesNone(page + 1);
    }
  }

  lemma {:induction false} PagesExtended(m: Memory, supply: seq<nat>, owner: Owner, pml4: nat, page: nat, last: nat,
                                         f: Flags, r: Mapping)
    returns (owner': Owner)
    requires TreeReady(m, supply, owner, pml4, 0, 256) && pml4 in m && page <= last + 1 && last < LAST_LOWER_PAGE
    requires r == PagesIn(m, supply, pml4, page, last, f)
    ensures Extended(m, owner, supply, r, owner', pml4, page, last, f, RegionNodes(page, last))
    decreases last + 1 - page
  {
    hide Owned, ValidSupply, Confined, RegionMapped, PathOf, Tree, Prefixes, Filled, TooFew, RegionNodes, PageIn;
    if page > last {
      owner' := owner;
      ConfinedRefl(m, owner, supply, pml4);
      RegionMappedNone(m, pml4, page, f);
      RegionNodesNone(page);
      FilledRefl(owner, supply, {});
    } else {
      var a := PageIn(m, supply, pml4, page, f);
      var o1 := PageExtended(m, supply, owner, pml4, page, f, a);
      if a.ok {
        owner' := PagesExtended(a.mem, a.supply, o1, pml4, page + 1, last, f, r);
        ExtendedTwice(m, owner, supply, a, o1, r, owner', pml4, page, last, f, Prefixes(PathOf(page * PAGE_SIZE)),
                      RegionNodes(page + 1, last));
        RegionNodesFront(page, last);
      } else {
        owner' := o1;
        StillTooFewMore(owner, supply, page, last);
      }
    }
  }

  lemma StillTooFewMore(owner: Owner, supply: seq<nat>, page: nat, last: nat)
    requires TooFew(owner, supply, Prefixes(PathOf(page * PAGE_SIZE))) && page <= last
    ensures TooFew(owner, supply, RegionNodes(page, last))
  {
    hide PathOf, Prefixes, RegionNodes;
    RegionNodesFront(page, last);
    SubsetSize(owner.Values + Prefixes(PathOf(page * PAGE_SIZE)), owner.Values + RegionNodes(page, last));
  }

  /** USER in the PML4 entry of a mapped address: no translation and no byte of user memory changes. */
  lemma GrantExtended(m: Memory, supply: seq<nat>, owner: Owner, pml4: nat, start: nat, f: Flags)
    requires TreeReady(m, supply, owner, pml4, 0, 256) && pml4 in m && start < LOWER_HALF_END
    requires Translate(m, pml4, start).Some?
    ensures var i := PathOf(start)[0];
            var e := WriteEntry(m, pml4, i, UserEntry(m[pml4][i]));
            && TreeReady(e, supply, owner, pml4, 0, 256) && Confined(m, owner, supply, e, owner, supply, pml4)
            && RegionMapped(m, e, pml4, 1, 0, f)
  {
    hide Owned, Grown, ValidSupply, Confined, RegionMapped, WalkTable, PathOf, Tree, UserEntry;
    MappedRoot(m, owner, pml4, start);
    var i := PathOf(start)[0];
    var w := UserEntry(m[pml4][i]);
    OwnersInMemory(m, owner, pml4, 0, 256);
    SetFlagsGrown(m, supply, owner, pml4, 0, 256, pml4, i, w);
    var e := WriteEntry(m, pml4, i, w);
    GrownConfined(m, owner, supply, e, owner, supply, pml4, []);
    GrownKeepsUser(m, owner, Range(supply), e, owner, pml4, f);
  }

  /** A region that ends before the last page of the lower half: exactly its pages become mapped where they were not,
      or it needs more frames than there are. */
  lemma RegionExtended(m: Memory, supply: seq<nat>, owner: Owner, pml4: nat, start: nat, size: nat, f: Flags,
                       r: Mapping)
    returns (owner': Owner)
    requires TreeReady(m, supply, owner, pml4, 0, 256) && pml4 in m && size > 0
    requires LastPage(start, size) < LAST_LOWER_PAGE && r == RegionIn(m, supply, pml4, start, size, f)
    ensures Extended(m, owner, supply, r, owner', pml4, start / PAGE_SIZE, LastPage(start, size), f,
                     RegionNodes(start / PAGE_SIZE, LastPage(start, size)))
  {
    hide Owned, Grown, ValidSupply, Confined, RegionMapped, WalkTable, PathOf, Tree, Filled, TooFew, RegionNodes,
         UserEntry, WriteEntry, PagesIn;
    var first, last := start / PAGE_SIZE, LastPage(start, size);
    var a := PagesIn(m, supply, pml4, first, last, f);
    owner' := PagesExtended(m, supply, owner, pml4, first, last, f, a);
    if a.ok {
      RegionHas(m, a.mem, pml4, first, last, f, start);
      GrantExtended(a.mem, a.supply, owner', pml4, start, f);
      ConfinedTransitive(m, owner, supply, a.mem, owner', a.supply, r.mem, owner', r.supply, pml4);
      RegionMappedJoin(m, a.mem, r.mem, pml4, first, last, 1, 0, f);
    }
  }

  lemma RegionMappedNone(m: Memory, pml4: nat, first: nat, f: Flags)
    ensures RegionMapped(m, m, pml4, first, first - 1, f)
  {}

  lemma RegionHas(m: Memory, e: Memory, pml4: nat, first: nat, last: int, f: Flags, x: nat)
    requires RegionMapped(m, e, pml4, first, last, f) && x < LOWER_HALF_END && first <= x / PAGE_SIZE <= last
    ensures Translate(e, pml4, x).Some?
  {}

  // ---- Segments ----

  predicate Covers(ph: ProgramHeader, va: nat) {
    ph.vaddr <= va < ph.vaddr + ph.memSize
  }

  predicate Loadable(data: seq<Byte>, ph: ProgramHeader) {
    ph.memSize > 0 ==> ph.fileOffset + ph.fileSize <= |data|
  }

  /** From `m` to `e` the bytes `x..y` of a segment were stored, and nothing else changed. */
  ghost predicate StoredPart(m: Memory, e: Memory, pml4: nat, data: seq<Byte>, ph: ProgramHeader, x: nat, y: nat)
    requires ph.fileOffset + ph.fileSize <= |data|
  {
    forall va :: 0 <= va < LOWER_HALF_END ==>
      && Translate(e, pml4, va) == Translate(m, pml4, va)
      && UserByte(e, pml4, va) == if ph.vaddr + x <= va < ph.vaddr + y then Some(SegmentByte(data, ph, va - ph.vaddr))
                                  else UserByte(m, pml4, va)
  }

  ghost predicate Stored(m: Memory, e: Memory, pml4: nat, va: nat, bytes: seq<Byte>) {
    forall x :: 0 <= x < LOWER_HALF_END ==>
      && Translate(e, pml4, x) == Translate(m, pml4, x)
      && UserByte(e, pml4, x) == if va <= x < va + |bytes| then Some(bytes[x - va]) else UserByte(m, pml4, x)
  }

  lemma StoredNext(m: Memory, e: Memory, g: Memory, pml4: nat, data: seq<Byte>, ph: ProgramHeader, x: nat, y: nat,
                   bytes: seq<Byte>)
    requires ph.fileOffset + ph.fileSize <= |data| && x + |bytes| <= y
    requires Stored(m, e, pml4, ph.vaddr + x, bytes) && StoredPart(e, g, pml4, data, ph, x + |bytes|, y)
    requires forall k :: 0 <= k < |bytes| ==> bytes[k] == SegmentByte(data, ph, x + k)
    ensures StoredPart(m, g, pml4, data, ph, x, y)
  {
    hide Translate, UserByte;
  }

  /** Writing a page of the tree keeps the tree. */
  lemma PageWritten(m: Memory, owner: Owner, supply: seq<nat>, pml4: nat, f: nat, t: Table)
    requires TreeReady(m, supply, owner, pml4, 0, 256) && f in m && f in owner && |owner[f]| == 4
    requires Owned(m[f := t], owner, pml4, 0, 256)
    ensures TreeReady(m[f := t], supply, owner, pml4, 0, 256)
    ensures Confined(m, owner, supply, m[f := t], owner, supply, pml4)
  {
    hide Tree;
    PageWriteTree(m, owner, f, t);
  }

  /** What storing bytes through the tree comes to. */
  lemma ChunkKept(m: Memory, supply: seq<nat>, owner: Owner, pml4: nat, va: nat, bytes: seq<Byte>, s: Storing)
    requires TreeReady(m, supply, owner, pml4, 0, 256) && pml4 in m && va < LOWER_HALF_END
    requires va % PAGE_SIZE + |bytes| <= PAGE_SIZE && s == StoreIn(m, pml4, va, bytes)
    requires Translate(m, pml4, va).Some?
    ensures s.ok && TreeReady(s.mem, supply, owner, pml4, 0, 256)
    ensures Confined(m, owner, supply, s.mem, owner, supply, pml4) && Stored(m, s.mem, pml4, va, bytes)
  {
    hide Owned, Tree, ValidSupply, Confined, WalkTable, PathOf, StoreBytes, Translate, UserByte, Locate;
    LocateLower(m, owner, pml4, va);
    ChunkStored(m, owner, pml4, va, bytes);
    var f := Translate(m, pml4, va).value.frame;
    PageWritten(m, owner, supply, pml4, f, StoreBytes(m[f], va % PAGE_SIZE, bytes));
  }

  ghost predicate MappedFrom(m: Memory, pml4: nat, ph: ProgramHeader, x: nat) {
    forall va :: ph.vaddr + x <= va < ph.vaddr + ph.memSize ==> Translate(m, pml4, va).Some?
  }

  lemma MappedStays(m: Memory, e: Memory, pml4: nat, ph: ProgramHeader, x: nat, n: nat, va: nat, bytes: seq<Byte>)
    requires MappedFrom(m, pml4, ph, x) && Stored(m, e, pml4, va, bytes) && ph.vaddr + ph.memSize <= LOWER_HALF_END
    ensures MappedFrom(e, pml4, ph, x + n)
  {
    hide Translate, UserByte;
  }

  /** The two loops together store the rest of the segment. */
  lemma {:induction false} FillStored(m: Memory, supply: seq<nat>, owner: Owner, pml4: nat, data: seq<Byte>,
                                      ph: ProgramHeader, x: nat, s: Storing)
    requires TreeReady(m, supply, owner, pml4, 0, 256) && pml4 in m && ph.vaddr + ph.memSize <= LOWER_HALF_END
    requires ph.fileOffset + ph.fileSize <= |data| && ph.fileSize <= ph.memSize && x <= ph.memSize
    requires MappedFrom(m, pml4, ph, x) && s == FillIn(m, pml4, data, ph, x)
    ensures s.ok && TreeReady(s.mem, supply, owner, pml4, 0, 256)
    ensures Confined(m, owner, supply, s.mem, owner, supply, pml4)
    ensures StoredPart(m, s.mem, pml4, data, ph, x, ph.memSize)
    decreases ph.memSize - x
  {
    hide TreeReady, Confined, Translate, UserByte, Stored, MappedFrom, StoreIn, FillIn, NextChunk, SegmentBytes;
    if x == ph.memSize {
      FillNone(m, pml4, data, ph, x);
      ConfinedRefl(m, owner, supply, pml4);
    } else {
      FillStep(m, pml4, data, ph, x);
      var va, n := ph.vaddr + x, NextChunk(ph, x);
      var bytes := SegmentBytes(data, ph, x, n);
      var a := StoreIn(m, pml4, va, bytes);
      MappedFirst(m, pml4, ph, x);
      ChunkKept(m, supply, owner, pml4, va, bytes, a);
      MappedStays(m, a.mem, pml4, ph, x, n, va, bytes);
      FillStored(a.mem, supply, owner, pml4, data, ph, x + n, s);
      ConfinedTransitive(m, owner, supply, a.mem, owner, supply, s.mem, owner, supply, pml4);
      StoredNext(m, a.mem, s.mem, pml4, data, ph, x, ph.memSize, bytes);
    }
  }

  lemma MappedFirst(m: Memory, pml4: nat, ph: ProgramHeader, x: nat)
    requires MappedFrom(m, pml4, ph, x) && x < ph.memSize
    ensures Translate(m, pml4, ph.vaddr + x).Some?
  {
    hide Translate;
  }

  // ---- Whole images ----

  /** The byte that the segments put at `va`: that of the last segment covering it. */
  function ImageByte(segs: seq<ProgramHeader>, data: seq<Byte>, va: nat): Option<Byte>
    requires forall k :: 0 <= k < |segs| ==> Loadable(data, segs[k])
  {
    if segs == [] then None
    else
      var last := segs[|segs| - 1];
      assert Loadable(data, last);
      if Covers(last, va) then Some(SegmentByte(data, last, va - last.vaddr))
      else ImageByte(segs[..|segs| - 1], data, va)
  }

  /** When no later segment covers an address, its byte is that of the segment that does: the
      file's byte within the file size, and zero from there to the memory size. */
  lemma {:induction false} ImageOfLastCover(segs: seq<ProgramHeader>, data: seq<Byte>, k: nat, va: nat)
    requires forall j :: 0 <= j < |segs| ==> Loadable(data, segs[j])
    requires k < |segs| && segs[k].vaddr <= va < segs[k].vaddr + segs[k].memSize
    requires forall j :: k < j < |segs| ==> !(segs[j].vaddr <= va < segs[j].vaddr + segs[j].memSize)
    ensures ImageByte(segs, data, va)
            == Some(if va < segs[k].vaddr + segs[k].fileSize then data[segs[k].fileOffset + va - segs[k].vaddr] else 0)
  {
    if k < |segs| - 1 {
      ImageOfLastCover(segs[..|segs| - 1], data, k, va);
    }
  }

  predicate TouchesPage(ph: ProgramHeader, page: nat) {
    ph.memSize > 0 && ph.vaddr / PAGE_SIZE <= page <= LastPage(ph.vaddr, ph.memSize)
  }

  predicate StackPage(page: nat) {
    USER_STACK_START / PAGE_SIZE <= page <= LastPage(USER_STACK_START, USER_STACK_SIZE)
  }

  /** The flags of a page: those of the stack, or of the first segment that touches it; none when
      nothing does. */
  function PageFlags(segs: seq<ProgramHeader>, page: nat): Option<Flags> {
    if StackPage(page) then Some(RegionFlags(true, false))
    else if segs == [] then None
    else
      var before, last := PageFlags(segs[..|segs| - 1], page), segs[|segs| - 1];
      if before.None? && TouchesPage(last, page) then Some(SegmentFlags(last)) else before
  }

  /** The first segment that touches a page outside the stack decides: the page is present and open to user code,
      writable exactly when bit 1 of the segment's flags is set, and not executable exactly when bit 0 is clear. */
  lemma {:induction false} FlagsOfFirstTouch(segs: seq<ProgramHeader>, k: nat, page: nat)
    requires k < |segs| && TouchesPage(segs[k], page) && !StackPage(page)
    requires forall j :: 0 <= j < k ==> !TouchesPage(segs[j], page)
    ensures PageFlags(segs, page)
            == Some(Flags(5 + 2 * (segs[k].flags / 2 % 2), 0x800 * (1 - segs[k].flags % 2)))
  {
    if k < |segs| - 1 {
      FlagsOfFirstTouch(segs[..|segs| - 1], k, page);
    } else {
      UntouchedPage(segs[..k], page);
    }
  }

  lemma {:induction false} UntouchedPage(segs: seq<ProgramHeader>, page: nat)
    requires !StackPage(page) && forall j :: 0 <= j < |segs| ==> !TouchesPage(segs[j], page)
    ensures PageFlags(segs, page) == None
  {
    if segs != [] {
      UntouchedPage(segs[..|segs| - 1], page);
    }
  }

  /** What loading promises of user memory: exactly the pages of the stack and of the segments are
      mapped, each with the flags it was first mapped with, and every address that a segment covers
      holds that segment's byte. */
  ghost predicate HoldsImage(m: Memory, pml4: nat, segs: seq<ProgramHeader>, data: seq<Byte>)
    requires forall k :: 0 <= k < |segs| ==> Loadable(data, segs[k])
  {
    forall va :: 0 <= va < LOWER_HALF_END ==>
      && Flagged(Translate(m, pml4, va), PageFlags(segs, va / PAGE_SIZE))
      && (ImageByte(segs, data, va).Some? ==> UserByte(m, pml4, va) == ImageByte(segs, data, va))
  }

  /** One more segment: its pages mapped, then its bytes stored. */
  lemma HoldsOneMore(m: Memory, e: Memory, g: Memory, pml4: nat, segs: seq<ProgramHeader>, data: seq<Byte>,
                     ph: ProgramHeader)
    requires forall k :: 0 <= k < |segs| ==> Loadable(data, segs[k])
    requires ph.memSize > 0 && Loadable(data, ph) && HoldsImage(m, pml4, segs, data)
    requires RegionMapped(m, e, pml4, ph.vaddr / PAGE_SIZE, LastPage(ph.vaddr, ph.memSize), SegmentFlags(ph))
    requires StoredPart(e, g, pml4, data, ph, 0, ph.memSize)
    ensures HoldsImage(g, pml4, segs + [ph], data)
  {
    hide WalkTable, PathOf, SegmentByte, RegionFlags;
    var more := segs + [ph];
    assert more[..|segs|] == segs && more[|segs|] == ph;
    forall va | 0 <= va < LOWER_HALF_END
      ensures Flagged(Translate(g, pml4, va), PageFlags(more, va / PAGE_SIZE))
      ensures ImageByte(more, data, va).Some? ==> UserByte(g, pml4, va) == ImageByte(more, data, va)
    {
      assert ImageByte(segs, data, va).Some? ==> Translate(m, pml4, va).Some?;
    }
  }

  /** An empty segment is skipped. */
  lemma HoldsEmpty(m: Memory, pml4: nat, segs: seq<ProgramHeader>, data: seq<Byte>, ph: ProgramHeader)
    requires forall k :: 0 <= k < |segs| ==> Loadable(data, segs[k])
    requires ph.memSize == 0 && HoldsImage(m, pml4, segs, data)
    ensures HoldsImage(m, pml4, segs + [ph], data)
  {
    hide Translate, UserByte;
    var more := segs + [ph];
    assert more[..|segs|] == segs && more[|segs|] == ph;
    forall va | 0 <= va < LOWER_HALF_END
      ensures PageFlags(more, va / PAGE_SIZE) == PageFlags(segs, va / PAGE_SIZE)
      ensures ImageByte(more, data, va) == ImageByte(segs, data, va)
    {}
  }

  lemma HoldsStack(m: Memory, e: Memory, pml4: nat, data: seq<Byte>)
    requires pml4 in m && forall i :: 0 <= i < 256 ==> m[pml4][i] == ZERO
    requires RegionMapped(m, e, pml4, USER_STACK_START / PAGE_SIZE,
                          LastPage(USER_STACK_START, USER_STACK_SIZE),
                          RegionFlags(true, false))
    ensures HoldsImage(e, pml4, [], data)
  {
    forall va | 0 <= va < LOWER_HALF_END ensures Translate(m, pml4, va) == None {
      LowerPath(va);
    }
  }

  /** The image parses, and every segment that takes up memory lies within the file. */
  ghost predicate GoodImage(data: seq<Byte>, segs: seq<ProgramHeader>) {
    && ParseHeader(data).Ok?
    && Segments(data, ParseHeader(data).value, ParseHeader(data).value.phnum) == Ok(segs)
    && forall k :: 0 <= k < |segs| ==> Loadable(data, segs[k])
  }

  /** Every segment that takes up memory ends before the last page of the lower half. */
  ghost predicate LowerHalfImage(data: seq<Byte>) {
    ParseHeader(data).Ok? ==>
      forall i :: 0 <= i < ParseHeader(data).value.phnum ==>
        var r := ParseProgramHeader(data, ParseHeader(data).value, i);
        r.Ok? && r.value.Some? && r.value.value.memSize > 0 ==>
          LastPage(r.value.value.vaddr, r.value.value.memSize) < LAST_LOWER_PAGE
  }

  /** The nodes of a process's tree: the PML4, the pages of the stack and of the segments, and the
      tables on the way to them. */
  ghost function ImageNodes(segs: seq<ProgramHeader>): set<seq<nat>> {
    if segs == [] then {[]} + RegionNodes(USER_STACK_START / PAGE_SIZE,
                                          LastPage(USER_STACK_START, USER_STACK_SIZE))
    else ImageNodes(segs[..|segs| - 1]) + SegmentNodes(segs[|segs| - 1])
  }

  ghost function SegmentNodes(ph: ProgramHeader): set<seq<nat>> {
    if ph.memSize == 0 then {} else RegionNodes(ph.vaddr / PAGE_SIZE, LastPage(ph.vaddr, ph.memSize))
  }

  lemma ImageNodesNext(segs: seq<ProgramHeader>, ph: ProgramHeader)
    ensures ImageNodes(segs + [ph]) == ImageNodes(segs) + SegmentNodes(ph)
  {
    assert (segs + [ph])[..|segs|] == segs;
  }

  lemma {:induction false} ImageNodesGrow(segs: seq<ProgramHeader>, n: nat)
    requires n <= |segs|
    ensures ImageNodes(segs[..n]) <= ImageNodes(segs)
  {
    if n < |segs| {
      ImageNodesGrow(segs[..|segs| - 1], n);
      assert segs[..|segs| - 1][..n] == segs[..n];
    } else {
      assert segs[..n] == segs;
    }
  }

  lemma {:induction false} RegionNodesAre(first: nat, last: int, q: seq<nat>)
    ensures q in RegionNodes(first, last) <==> exists page :: first <= page <= last && OnPath(page, q)
    decreases last + 1
  {
    hide PathOf;
    if first <= last {
      RegionNodesAre(first, last - 1, q);
      assert OnPath(last, q) <==> q in Prefixes(PathOf(last * PAGE_SIZE));
    }
  }

  /** `q` is the path of the page or of a table on the way to it. */
  ghost predicate OnPath(page: nat, q: seq<nat>) {
    q in Prefixes(PathOf(page * PAGE_SIZE))
  }

  /** A node is the PML4, or lies on the way to a page that is mapped. */
  lemma {:induction false} ImageNodesAre(segs: seq<ProgramHeader>, q: seq<nat>)
    ensures q in ImageNodes(segs) <==> q == [] || exists page :: PageFlags(segs, page).Some? && OnPath(page, q)
  {
    hide PathOf, RegionNodes, RegionFlags, OnPath;
    if segs == [] {
      RegionNodesAre(USER_STACK_START / PAGE_SIZE, LastPage(USER_STACK_START, USER_STACK_SIZE), q);
    } else {
      var before, last := segs[..|segs| - 1], segs[|segs| - 1];
      ImageNodesAre(before, q);
      if last.memSize > 0 {
        RegionNodesAre(last.vaddr / PAGE_SIZE, LastPage(last.vaddr, last.memSize), q);
      }
      assert forall page: nat ::
               PageFlags(segs, page).Some? <==> PageFlags(before, page).Some? || TouchesPage(last, page);
    }
  }

  /** Segments of a good image read so far, and one more that cannot be mapped. */
  lemma {:induction false} ImageTooLarge(data: seq<Byte>, h: Header, i: nat, segs: seq<ProgramHeader>,
                                         ph: ProgramHeader, total: nat)
    requires ParseHeader(data) == Ok(h) && i < h.phnum && Segments(data, h, i) == Ok(segs)
    requires ParseProgramHeader(data, h, i) == Ok(Some(ph)) && total < |ImageNodes(segs) + SegmentNodes(ph)|
    ensures forall s :: GoodImage(data, s) ==> total < |ImageNodes(s)|
  {
    hide ParseHeader, ParseProgramHeader, ImageNodes, SegmentNodes, GoodImage, Segments;
    forall s | GoodImage(data, s) ensures total < |ImageNodes(s)| {
      SegmentsSoFar(data, h, i, segs, ph, s);
      ImageNodesGrow(s, |segs| + 1);
      ImageNodesNext(segs, ph);
      SubsetSize(ImageNodes(segs) + SegmentNodes(ph), ImageNodes(s));
    }
  }

  lemma {:induction false} SegmentsSoFar(data: seq<Byte>, h: Header, i: nat, segs: seq<ProgramHeader>,
                                         ph: ProgramHeader, s: seq<ProgramHeader>)
    requires ParseHeader(data) == Ok(h) && i < h.phnum && Segments(data, h, i) == Ok(segs)
    requires ParseProgramHeader(data, h, i) == Ok(Some(ph)) && GoodImage(data, s)
    ensures |segs| + 1 <= |s| && s[..|segs| + 1] == segs + [ph]
  {
    hide ParseHeader, ParseProgramHeader;
    SegmentsPrefix(data, h, i + 1, h.phnum);
  }

  /** The error of the first program header that does not parse or describes a segment outside the file. */
  function SegmentsError(data: seq<Byte>, h: Header, n: nat): Option<ParseError>
    requires 56 <= h.phentsize
  {
    if n == 0 then None
    else if SegmentsError(data, h, n - 1).Some? then SegmentsError(data, h, n - 1)
    else HeaderError(data, h, n - 1)
  }

  /** The first error of an image: of its header, or of its program headers. */
  function FirstError(data: seq<Byte>): Option<ParseError> {
    match ParseHeader(data)
    case Err(e) => Some(e)
    case Ok(h) => SegmentsError(data, h, h.phnum)
  }

  function HeaderError(data: seq<Byte>, h: Header, i: nat): Option<ParseError>
    requires 56 <= h.phentsize
  {
    match ParseProgramHeader(data, h, i)
    case Err(e) => Some(e)
    case Ok(Some(ph)) => if Loadable(data, ph) then None else Some(ProgramHeaderOutOfBounds)
    case Ok(None) => None
  }

  lemma {:induction false} FirstErrorStays(data: seq<Byte>, h: Header, i: nat, n: nat)
    requires 56 <= h.phentsize && i <= n && SegmentsError(data, h, i).Some?
    ensures SegmentsError(data, h, n) == SegmentsError(data, h, i)
  {
    hide HeaderError;
    if i < n {
      FirstErrorStays(data, h, i, n - 1);
    }
  }

  lemma {:induction false} SegmentsPrefix(data: seq<Byte>, h: Header, n: nat, n': nat)
    requires 56 <= h.phentsize && n <= n' && Segments(data, h, n').Ok?
    ensures Segments(data, h, n).Ok?
    ensures var s, s' := Segments(data, h, n).value, Segments(data, h, n').value; |s| <= |s'| && s == s'[..|s|]
  {
    if n < n' {
      SegmentsPrefix(data, h, n, n' - 1);
    }
  }

  lemma GoodProgramHeader(data: seq<Byte>, h: Header, i: nat, s: seq<ProgramHeader>)
    requires ParseHeader(data) == Ok(h) && i < h.phnum && GoodImage(data, s)
    ensures var r := ParseProgramHeader(data, h, i); r.Ok? && (r.value.Some? ==> Loadable(data, r.value.value))
  {
    hide ParseHeader, ParseProgramHeader;
    SegmentsPrefix(data, h, i + 1, h.phnum);
    var r := ParseProgramHeader(data, h, i);
    if r.value.Some? {
      var upTo := Segments(data, h, i + 1).value;
      assert s[|upTo| - 1] == upTo[|upTo| - 1] == r.value.value;
    }
  }

  /** An image with a program header that does not parse, or a segment outside the file, is refused. */
  lemma BadImage(data: seq<Byte>, h: Header, i: nat)
    requires ParseHeader(data) == Ok(h) && i < h.phnum
    requires var r := ParseProgramHeader(data, h, i); r.Err? || (r.value.Some? && !Loadable(data, r.value.value))
    ensures forall s :: !GoodImage(data, s)
  {
    hide ParseHeader, ParseProgramHeader, Segments;
    forall s | GoodImage(data, s) ensures false {
      GoodProgramHeader(data, h, i, s);
    }
  }

  lemma BuiltFromConfined(m: Memory, supply: seq<nat>, cr3: nat, m1: Memory, e: Memory, owner: Owner, rest: seq<nat>,
                          data: seq<Byte>, segs: seq<ProgramHeader>)
    requires supply != [] && cr3 in m && GoodImage(data, segs)
    requires SameOutside(m, m1, {supply[0]}) && supply[0] in m1
    requires forall i :: 256 <= i < 512 ==> m1[supply[0]][i] == m[cr3][i]
    requires Confined(m1, map[supply[0] := []], supply[1..], e, owner, rest, supply[0])
    requires HoldsImage(e, supply[0], segs, data)
    ensures ProcessBuilt(m, supply, cr3, e, supply[0], data, segs)
  {
    hide HoldsImage, GoodImage;
    assert supply == [supply[0]] + supply[1..];
  }

  /** Every page is a frame that was taken from the supply. */
  ghost predicate PagesTaken(e: Memory, pml4: nat, supply: seq<nat>, rest: seq<nat>) {
    forall va :: 0 <= va < LOWER_HALF_END && Translate(e, pml4, va).Some? ==>
      var f := Translate(e, pml4, va).value.frame; f in e && f in supply && f !in rest
  }

  /** What is left behind, whatever came of it: some frames of the supply are gone, and only those written. */
  lemma LoadSpent(m: Memory, supply: seq<nat>, m1: Memory, e: Memory, owner: Owner, rest: seq<nat>)
    requires supply != [] && SameOutside(m, m1, {supply[0]}) && supply[0] in m1
    requires Confined(m1, map[supply[0] := []], supply[1..], e, owner, rest, supply[0])
             && TreeReady(e, rest, owner, supply[0], 0, 256)
    ensures Spent(m, supply, e, rest)
  {
    hide Owned, Tree;
    assert supply == [supply[0]] + supply[1..];
  }

  /** The process built in a tree of its own. */
  lemma ProcessMade(m: Memory, supply: seq<nat>, cr3: nat, m1: Memory, e: Memory, owner: Owner, rest: seq<nat>)
    requires supply != [] && cr3 in m && SameOutside(m, m1, {supply[0]}) && supply[0] in m1
    requires forall i :: 256 <= i < 512 ==> m1[supply[0]][i] == m[cr3][i]
    requires Confined(m1, map[supply[0] := []], supply[1..], e, owner, rest, supply[0])
             && TreeReady(e, rest, owner, supply[0], 0, 256)
    ensures SpaceMade(m, supply, m[cr3], e, rest, supply[0]) && PagesTaken(e, supply[0], supply, rest)
  {
    hide Owned, Tree, TablesFirst, WellFormed, Translate, Spent;
    var p := supply[0];
    LoadSpent(m, supply, m1, e, owner, rest);
    OwnersInMemory(e, owner, p, 0, 256);
    OwnedEntries(e, owner, p, 0, 256, p, 3, 256);
    assert supply == [p] + supply[1..];
    forall va | 0 <= va < LOWER_HALF_END && Translate(e, p, va).Some?
      ensures var f := Translate(e, p, va).value.frame; f in e && f in supply && f !in rest
    {
      MappedPage(e, owner, p, va);
    }
  }

  lemma StackNodes(owner: Owner, supply: seq<nat>, p: nat, owner': Owner, supply': seq<nat>)
    requires supply != [] && owner == map[p := []]
    requires Filled(owner, supply[1..], owner', supply',
                    RegionNodes(USER_STACK_START / PAGE_SIZE, LastPage(USER_STACK_START, USER_STACK_SIZE)))
    ensures |owner'| + |supply'| == |supply| && owner'.Values == ImageNodes([])
  {
    hide RegionNodes;
    assert owner.Values == {[]} by { assert owner[p] == []; }
    assert owner.Keys == {p};
  }

  lemma StackTooFew(owner: Owner, supply: seq<nat>, p: nat, data: seq<Byte>)
    requires supply != [] && owner == map[p := []]
    requires TooFew(owner, supply[1..],
                    RegionNodes(USER_STACK_START / PAGE_SIZE, LastPage(USER_STACK_START, USER_STACK_SIZE)))
    ensures forall s :: GoodImage(data, s) ==> |supply| < |ImageNodes(s)|
  {
    hide RegionNodes, GoodImage;
    assert owner.Values == {[]} by { assert owner[p] == []; }
    assert owner.Keys == {p};
    forall s | GoodImage(data, s) ensures |supply| < |ImageNodes(s)| {
      ImageNodesGrow(s, 0);
      SubsetSize(ImageNodes(s[..0]), ImageNodes(s));
    }
  }

  lemma {:induction false} SomeNodes(s: seq<ProgramHeader>)
    ensures |ImageNodes(s)| > 0
  {
    hide RegionNodes;
    ImageNodesGrow(s, 0);
    assert [] in ImageNodes(s[..0]);
  }

  lemma NodesTaken(m: Memory, owner: Owner, supply: seq<nat>, total: nat, segs: seq<ProgramHeader>)
    requires Tree(m, owner) && |owner| + |supply| == total && owner.Values == ImageNodes(segs)
    ensures |supply| == total - |ImageNodes(segs)|
  {
    hide Tree, ImageNodes;
    TreeCount(m, owner);
  }

  /** The memory an image is loaded into, against the memory before: what is promised of a process. */
  ghost predicate ProcessBuilt(m: Memory, supply: seq<nat>, cr3: nat, e: Memory, pml4: nat, data: seq<Byte>,
                               segs: seq<ProgramHeader>)
    requires GoodImage(data, segs)
  {
    && e.Keys == m.Keys && cr3 in m && pml4 in supply && pml4 in e
    && HoldsImage(e, pml4, segs, data)
    && (forall f :: f in m && f !in supply ==> e[f] == m[f])
    && (forall i :: 256 <= i < 512 ==> e[pml4][i] == m[cr3][i])
  }

  lemma SpentNone(m: Memory, supply: seq<nat>)
    requires ValidSupply(m, supply)
    ensures Spent(m, supply, m, supply)
  {}

  lemma SpentOf(m: Memory, supply: seq<nat>, upper: Table, e: Memory, rest: seq<nat>, p: nat)
    requires SpaceMade(m, supply, upper, e, rest, p)
    ensures Spent(m, supply, e, rest)
  {
    hide Spent, TablesFirst, LowerHalfWellFormed;
  }

  lemma EmptyNodes(ph: ProgramHeader)
    requires ph.memSize == 0
    ensures SegmentNodes(ph) == {}
  {}

  lemma LowerHalfSegment(data: seq<Byte>, h: Header, i: nat)
    requires LowerHalfImage(data) && ParseHeader(data) == Ok(h) && i < h.phnum
    requires ParseProgramHeader(data, h, i).Ok? && ParseProgramHeader(data, h, i).value.Some?
    ensures var ph := ParseProgramHeader(data, h, i).value.value;
            ph.memSize > 0 ==> LastPage(ph.vaddr, ph.memSize) < LAST_LOWER_PAGE
  {
    hide ParseHeader, ParseProgramHeader;
  }

  /** The first `i` program headers are done: their segments are in memory, and every frame taken is a
      node of the tree. */
  ghost predicate LoadedTo(m: Memory, owner: Owner, supply: seq<nat>, pml4: nat, data: seq<Byte>, h: Header, i: nat,
                           segs: seq<ProgramHeader>, total: nat)
  {
    && 56 <= h.phentsize && Segments(data, h, i) == Ok(segs) && SegmentsError(data, h, i) == None
    && (forall k :: 0 <= k < |segs| ==> Loadable(data, segs[k]))
    && HoldsImage(m, pml4, segs, data)
    && |owner| + |supply| == total && owner.Values == ImageNodes(segs)
  }

  lemma LoadedOneMore(m: Memory, owner: Owner, supply: seq<nat>, e: Memory, owner': Owner, supply': seq<nat>, pml4: nat,
                      data: seq<Byte>, h: Header, i: nat, segs: seq<ProgramHeader>, ph: ProgramHeader, total: nat)
    requires LoadedTo(m, owner, supply, pml4, data, h, i, segs, total) && ParseProgramHeader(data, h, i) == Ok(Some(ph))
    requires Loadable(data, ph) && HoldsImage(e, pml4, segs + [ph], data)
    requires Filled(owner, supply, owner', supply', SegmentNodes(ph))
    ensures LoadedTo(e, owner', supply', pml4, data, h, i + 1, segs + [ph], total)
  {
    hide HoldsImage, ParseProgramHeader, ImageNodes, SegmentNodes;
    ImageNodesNext(segs, ph);
  }

  lemma LoadedNoSegment(m: Memory, owner: Owner, supply: seq<nat>, pml4: nat, data: seq<Byte>, h: Header, i: nat,
                        segs: seq<ProgramHeader>, total: nat)
    requires LoadedTo(m, owner, supply, pml4, data, h, i, segs, total) && ParseProgramHeader(data, h, i) == Ok(None)
    ensures LoadedTo(m, owner, supply, pml4, data, h, i + 1, segs, total)
  {
    hide HoldsImage, ParseProgramHeader, ImageNodes;
  }

  /** A header that is refused, or a segment outside the file. */
  lemma LoadedBad(m: Memory, owner: Owner, supply: seq<nat>, pml4: nat, data: seq<Byte>, h: Header, i: nat,
                  segs: seq<ProgramHeader>, total: nat, error: ParseError)
    requires LoadedTo(m, owner, supply, pml4, data, h, i, segs, total) && ParseHeader(data) == Ok(h) && i < h.phnum
    requires 56 <= h.phentsize && HeaderError(data, h, i) == Some(error)
    ensures SegmentsError(data, h, h.phnum) == Some(error) && forall s :: !GoodImage(data, s)
  {
    hide HoldsImage, ParseProgramHeader, ImageNodes, ParseHeader, Segments;
    BadImage(data, h, i);
    FirstErrorStays(data, h, i + 1, h.phnum);
  }

  lemma LoadedTooFew(m: Memory, owner: Owner, supply: seq<nat>, pml4: nat, data: seq<Byte>, h: Header, i: nat,
                     segs: seq<ProgramHeader>, ph: ProgramHeader, total: nat)
    requires LoadedTo(m, owner, supply, pml4, data, h, i, segs, total) && ParseHeader(data) == Ok(h) && i < h.phnum
    requires ParseProgramHeader(data, h, i) == Ok(Some(ph)) && TooFew(owner, supply, SegmentNodes(ph))
    ensures forall s :: GoodImage(data, s) ==> total < |ImageNodes(s)|
  {
    hide HoldsImage, ParseProgramHeader, ImageNodes, SegmentNodes, ParseHeader, Segments, GoodImage, SegmentsError;
    ImageTooLarge(data, h, i, segs, ph, total);
  }

  lemma HoldsOf(m: Memory, owner: Owner, supply: seq<nat>, pml4: nat, data: seq<Byte>, h: Header, i: nat,
                segs: seq<ProgramHeader>, total: nat)
    requires LoadedTo(m, owner, supply, pml4, data, h, i, segs, total)
    ensures 56 <= h.phentsize && (forall k :: 0 <= k < |segs| ==> Loadable(data, segs[k]))
            && HoldsImage(m, pml4, segs, data)
  {
    hide HoldsImage, ImageNodes, Segments, SegmentsError;
  }

  lemma LoadedStart(m: Memory, owner: Owner, supply: seq<nat>, pml4: nat, data: seq<Byte>, h: Header)
    requires 56 <= h.phentsize && HoldsImage(m, pml4, [], data) && owner.Values == ImageNodes([])
    ensures LoadedTo(m, owner, supply, pml4, data, h, 0, [], |owner| + |supply|)
  {
    hide HoldsImage, ImageNodes;
  }

  lemma LoadedAll(m: Memory, owner: Owner, supply: seq<nat>, pml4: nat, data: seq<Byte>, h: Header,
                  segs: seq<ProgramHeader>, total: nat)
    requires LoadedTo(m, owner, supply, pml4, data, h, h.phnum, segs, total) && ParseHeader(data) == Ok(h)
    ensures GoodImage(data, segs) && HoldsImage(m, pml4, segs, data)
    ensures |owner| + |supply| == total && owner.Values == ImageNodes(segs)
  {
    hide HoldsImage, ImageNodes, ParseHeader, Segments;
  }

  lemma SegmentMapped(m: Memory, e: Memory, pml4: nat, ph: ProgramHeader)
    requires ph.memSize > 0 && LastPage(ph.vaddr, ph.memSize) < LAST_LOWER_PAGE
    requires RegionMapped(m, e, pml4, ph.vaddr / PAGE_SIZE, LastPage(ph.vaddr, ph.memSize), SegmentFlags(ph))
    ensures MappedFrom(e, pml4, ph, 0) && ph.vaddr + ph.memSize <= LOWER_HALF_END
  {
    hide Translate, RegionMapped;
    forall va | ph.vaddr + 0 <= va < ph.vaddr + ph.memSize ensures Translate(e, pml4, va).Some? {
      RegionHas(m, e, pml4, ph.vaddr / PAGE_SIZE, LastPage(ph.vaddr, ph.memSize), SegmentFlags(ph), va);
    }
  }

  /** Memory holds the image of segments that all lie within the file. */
  ghost predicate Holding(m: Memory, pml4: nat, segs: seq<ProgramHeader>, data: seq<Byte>) {
    (forall k :: 0 <= k < |segs| ==> Loadable(data, segs[k])) && HoldsImage(m, pml4, segs, data)
  }

  /** One segment mapped and filled. */
  lemma SegmentHeld(m: Memory, supply: seq<nat>, owner: Owner, pml4: nat, data: seq<Byte>, ph: ProgramHeader,
                    segs: seq<ProgramHeader>, r: Mapping)
    returns (owner': Owner)
    requires TreeReady(m, supply, owner, pml4, 0, 256) && pml4 in m && ph.memSize > 0
    requires ph.fileOffset + ph.fileSize <= |data| && ph.fileSize <= ph.memSize
    requires LastPage(ph.vaddr, ph.memSize) < LAST_LOWER_PAGE && r == SegmentIn(m, supply, pml4, data, ph)
    requires Holding(m, pml4, segs, data)
    ensures TreeReady(r.mem, r.supply, owner', pml4, 0, 256)
    ensures Confined(m, owner, supply, r.mem, owner', r.supply, pml4)
    ensures r.ok ==> Holding(r.mem, pml4, segs + [ph], data)
    ensures r.ok ==> Filled(owner, supply, owner', r.supply, SegmentNodes(ph))
    ensures !r.ok ==> r.supply == [] && TooFew(owner, supply, SegmentNodes(ph))
  {
    hide Owned, ValidSupply, Confined, Holding, Tree, Filled, TooFew, RegionNodes, RegionIn, FillIn, LastPage,
         RegionMapped, SegmentFlags;
    var a := RegionIn(m, supply, pml4, ph.vaddr, ph.memSize, SegmentFlags(ph));
    owner' := RegionExtended(m, supply, owner, pml4, ph.vaddr, ph.memSize, SegmentFlags(ph), a);
    if a.ok {
      var s := FillIn(a.mem, pml4, data, ph, 0);
      SegmentFilled(m, a, owner', pml4, data, ph, segs, s);
      ConfinedTransitive(m, owner, supply, a.mem, owner', a.supply, r.mem, owner', r.supply, pml4);
    }
  }

  lemma SegmentFilled(m: Memory, a: Mapping, owner: Owner, pml4: nat, data: seq<Byte>, ph: ProgramHeader,
                      segs: seq<ProgramHeader>, s: Storing)
    requires TreeReady(a.mem, a.supply, owner, pml4, 0, 256) && pml4 in a.mem && ph.memSize > 0
    requires ph.fileOffset + ph.fileSize <= |data| && ph.fileSize <= ph.memSize
    requires LastPage(ph.vaddr, ph.memSize) < LAST_LOWER_PAGE && s == FillIn(a.mem, pml4, data, ph, 0)
    requires Holding(m, pml4, segs, data)
    requires RegionMapped(m, a.mem, pml4, ph.vaddr / PAGE_SIZE, LastPage(ph.vaddr, ph.memSize), SegmentFlags(ph))
    ensures s.ok && TreeReady(s.mem, a.supply, owner, pml4, 0, 256)
    ensures Confined(a.mem, owner, a.supply, s.mem, owner, a.supply, pml4)
    ensures Holding(s.mem, pml4, segs + [ph], data)
  {
    hide Owned, ValidSupply, Confined, Translate, UserByte, RegionMapped, StoredPart, HoldsImage, Tree, FillIn,
         MappedFrom, LastPage, SegmentFlags;
    SegmentMapped(m, a.mem, pml4, ph);
    FillStored(a.mem, a.supply, owner, pml4, data, ph, 0, s);
    HoldsOneMore(m, a.mem, s.mem, pml4, segs, data, ph);
  }

  /** One program header. */
  lemma HeaderLoaded(m: Memory, supply: seq<nat>, owner: Owner, pml4: nat, data: seq<Byte>, h: Header, i: nat,
                     segs: seq<ProgramHeader>, total: nat, l: Loading)
    returns (owner': Owner, more: seq<ProgramHeader>)
    requires TreeReady(m, supply, owner, pml4, 0, 256) && pml4 in m && 56 <= h.phentsize
    requires ParseHeader(data) == Ok(h) && LowerHalfImage(data) && i < h.phnum
    requires LoadedTo(m, owner, supply, pml4, data, h, i, segs, total) && l == HeaderIn(m, supply, pml4, data, h, i)
    ensures TreeReady(l.mem, l.supply, owner', pml4, 0, 256)
    ensures Confined(m, owner, supply, l.mem, owner', l.supply, pml4)
    ensures l.outcome.Bad? ==>
              SegmentsError(data, h, h.phnum) == Some(l.outcome.error) && forall s :: !GoodImage(data, s)
    ensures l.outcome.Panic? ==> l.supply == [] && forall s :: GoodImage(data, s) ==> total < |ImageNodes(s)|
    ensures l.outcome.Done? ==> LoadedTo(l.mem, owner', l.supply, pml4, data, h, i + 1, more, total)
  {
    hide Owned, ValidSupply, Confined, HoldsImage, ParseHeader, ParseProgramHeader, ImageByte, LowerHalfImage, Tree,
         ImageNodes, SegmentNodes, LoadedTo, GoodImage, SegmentsError, Filled, TooFew, SegmentIn;
    owner', more := owner, segs;
    ConfinedRefl(m, owner, supply, pml4);
    HoldsOf(m, owner, supply, pml4, data, h, i, segs, total);
    var parsed := ParseProgramHeader(data, h, i);
    if parsed.Err? {
      LoadedBad(m, owner, supply, pml4, data, h, i, segs, total, parsed.error);
      return;
    }
    if parsed.value.None? {
      LoadedNoSegment(m, owner, supply, pml4, data, h, i, segs, total);
      return;
    }
    var ph := parsed.value.value;
    if ph.memSize == 0 {
      EmptyNodes(ph);
      FilledRefl(owner, supply, {});
      HoldsEmpty(m, pml4, segs, data, ph);
    } else {
      if ph.fileOffset + ph.fileSize > |data| {
        LoadedBad(m, owner, supply, pml4, data, h, i, segs, total, ProgramHeaderOutOfBounds);
        return;
      }
      LowerHalfSegment(data, h, i);
      owner' := SegmentHeld(m, supply, owner, pml4, data, ph, segs, SegmentIn(m, supply, pml4, data, ph));
      if l.outcome.Panic? {
        LoadedTooFew(m, owner, supply, pml4, data, h, i, segs, ph, total);
        return;
      }
    }
    more := segs + [ph];
    LoadedOneMore(m, owner, supply, l.mem, owner', l.supply, pml4, data, h, i, segs, ph, total);
  }

  lemma ReadySound(m: Memory, supply: seq<nat>, owner: Owner, pml4: nat)
    requires TreeReady(m, supply, owner, pml4, 0, 256) && pml4 in m
    ensures Sound(m, supply, pml4)
  {}

  /** The first `n` program headers. */
  lemma {:induction false} HeadersLoaded(m: Memory, supply: seq<nat>, owner: Owner, pml4: nat, data: seq<Byte>,
                                         h: Header, n: nat, l: Loading)
    returns (owner': Owner, segs: seq<ProgramHeader>)
    requires TreeReady(m, supply, owner, pml4, 0, 256) && pml4 in m && 56 <= h.phentsize
    requires ParseHeader(data) == Ok(h) && LowerHalfImage(data) && n <= h.phnum
    requires HoldsImage(m, pml4, [], data) && owner.Values == ImageNodes([])
    requires l == HeadersIn(m, supply, pml4, data, h, n)
    ensures TreeReady(l.mem, l.supply, owner', pml4, 0, 256)
    ensures Confined(m, owner, supply, l.mem, owner', l.supply, pml4)
    ensures l.outcome.Bad? ==>
              SegmentsError(data, h, h.phnum) == Some(l.outcome.error) && forall s :: !GoodImage(data, s)
    ensures l.outcome.Panic? ==>
              l.supply == [] && forall s :: GoodImage(data, s) ==> |owner| + |supply| < |ImageNodes(s)|
    ensures l.outcome.Done? ==>
              LoadedTo(l.mem, owner', l.supply, pml4, data, h, n, segs, |owner| + |supply|)
  {
    hide TreeReady, ValidSupply, Confined, HoldsImage, ParseHeader, LowerHalfImage, ImageNodes, LoadedTo, GoodImage,
         SegmentsError, HeaderIn;
    ReadySound(m, supply, owner, pml4);
    if n == 0 {
      owner', segs := owner, [];
      ConfinedRefl(m, owner, supply, pml4);
      LoadedStart(m, owner, supply, pml4, data, h);
    } else {
      var a := HeadersIn(m, supply, pml4, data, h, n - 1);
      owner', segs := HeadersLoaded(m, supply, owner, pml4, data, h, n - 1, a);
      if a.outcome == Done {
        var o1 := owner';
        owner', segs := HeaderLoaded(a.mem, a.supply, o1, pml4, data, h, n - 1, segs, |owner| + |supply|, l);
        ConfinedTransitive(m, owner, supply, a.mem, o1, a.supply, l.mem, owner', l.supply, pml4);
      }
    }
  }

  /** The tree of a new PML4. */
  lemma RootReady(m: Memory, supply: seq<nat>, cr3: nat)
    requires Sound(m, supply, cr3) && supply != []
    ensures var m1 := m[supply[0] := ProcessRoot(m[cr3])];
            TreeReady(m1, supply[1..], map[supply[0] := []], supply[0], 0, 256) && SameOutside(m, m1, {supply[0]})
  {
    FirstInSupply(m, supply);
  }

  /** What loading does when it does not fail: exactly the pages of the stack and of the segments are mapped, and the
      tree has exactly their nodes. */
  ghost predicate LoadedWell(m: Memory, supply: seq<nat>, data: seq<Byte>, cr3: nat, s: LoadStep,
                             segs: seq<ProgramHeader>)
    requires cr3 in m
  {
    && s.result.Loaded? && ParseHeader(data).Ok? && GoodImage(data, segs)
    && s.result.entry == ParseHeader(data).value.entry && s.result.stackTop == USER_STACK_START + USER_STACK_SIZE
    && ProcessBuilt(m, supply, cr3, s.mem, s.result.pml4, data, segs)
    && SpaceMade(m, supply, m[cr3], s.mem, s.supply, s.result.pml4)
    && PagesTaken(s.mem, s.result.pml4, supply, s.supply)
    && |s.supply| == |supply| - |ImageNodes(segs)|
  }

  /** `new_from_elf` for an image that lies in the lower half: it loads exactly when the image is good, its entry is
      canonical and there are as many frames as the image has nodes; otherwise it gives the first error, or panics
      with no frame left. In any case only frames of the supply are written. */
  lemma LowerHalfLoaded(m: Memory, supply: seq<nat>, data: seq<Byte>, cr3: nat, s: LoadStep)
    returns (segs: seq<ProgramHeader>)
    requires Sound(m, supply, cr3) && cr3 !in supply && LowerHalfImage(data) && s == LoadIn(m, supply, data, cr3)
    ensures Spent(m, supply, s.mem, s.supply)
    ensures s.result.Malformed? ==> (forall t :: !GoodImage(data, t)) && FirstError(data) == Some(s.result.error)
    ensures s.result.Panicked? ==>
              ParseHeader(data).Ok? && (s.supply == [] || !Canonical(ParseHeader(data).value.entry))
    ensures s.result.Loaded? <==>
            && (exists t :: GoodImage(data, t) && |ImageNodes(t)| <= |supply|)
            && var entry := ParseHeader(data).value.entry;
               entry < 0x8000_0000_0000 || 0xFFFF_8000_0000_0000 <= entry < 0x1_0000_0000_0000_0000
    ensures s.result.Loaded? ==> LoadedWell(m, supply, data, cr3, s, segs)
  {
    hide ParseHeader, GoodImage, LowerHalfImage, ImageNodes, SegmentsError, LoadedWell, Spent, ValidSupply, RegionIn,
         HeadersIn;
    segs := [];
    SpentNone(m, supply);
    var header := ParseHeader(data);
    if header.Err? {
      assert forall t :: !GoodImage(data, t) by { NotParsed(data); }
      return;
    }
    forall t ensures |ImageNodes(t)| > 0 { SomeNodes(t); }
    if supply == [] {
      return;
    }
    FirstInSupply(m, supply);
    RootReady(m, supply, cr3);
    var p, h := supply[0], header.value;
    var m1 := m[p := ProcessRoot(m[cr3])];
    if !Canonical(h.entry) {
      RootSpent(m, supply, m1);
      return;
    }
    segs := StackThenHeaders(m, supply, data, cr3, s);
  }

  lemma NotParsed(data: seq<Byte>)
    requires ParseHeader(data).Err?
    ensures forall t :: !GoodImage(data, t)
  {}

  lemma RootSpent(m: Memory, supply: seq<nat>, m1: Memory)
    requires ValidSupply(m, supply) && supply != [] && SameOutside(m, m1, {supply[0]})
    ensures Spent(m, supply, m1, supply[1..])
  {
    assert supply == [supply[0]] + supply[1..];
  }

  /** The part of a load after the new PML4: the stack, then the program headers. */
  lemma StackThenHeaders(m: Memory, supply: seq<nat>, data: seq<Byte>, cr3: nat, s: LoadStep)
    returns (segs: seq<ProgramHeader>)
    requires Sound(m, supply, cr3) && cr3 !in supply && LowerHalfImage(data) && s == LoadIn(m, supply, data, cr3)
    requires supply != [] && ParseHeader(data).Ok? && Canonical(ParseHeader(data).value.entry)
    ensures Spent(m, supply, s.mem, s.supply)
    ensures s.result.Malformed? ==>
              && (forall t :: !GoodImage(data, t))
              && SegmentsError(data, ParseHeader(data).value, ParseHeader(data).value.phnum) == Some(s.result.error)
    ensures s.result.Panicked? ==> s.supply == [] && forall t :: GoodImage(data, t) ==> |supply| < |ImageNodes(t)|
    ensures s.result.Loaded? ==>
              LoadedWell(m, supply, data, cr3, s, segs) && GoodImage(data, segs) && |ImageNodes(segs)| <= |supply|
  {
    hide ParseHeader, GoodImage, LowerHalfImage, ImageNodes, SegmentsError, Spent, ValidSupply, RegionIn, HeadersIn,
         Canonical, Owned, Tree, Confined, RegionMapped, RegionNodes, Filled, TooFew, HoldsImage, SpaceMade,
         ProcessBuilt, PagesTaken, LoadedTo;
    segs := [];
    FirstInSupply(m, supply);
    RootReady(m, supply, cr3);
    var p, h := supply[0], ParseHeader(data).value;
    var m1 := m[p := ProcessRoot(m[cr3])];
    var o1: Owner := map[p := []];
    StackLower();
    var r := RegionIn(m1, supply[1..], p, USER_STACK_START, USER_STACK_SIZE, RegionFlags(true, false));
    var o2 := RegionExtended(m1, supply[1..], o1, p, USER_STACK_START, USER_STACK_SIZE, RegionFlags(true, false), r);
    LoadSpent(m, supply, m1, r.mem, o2, r.supply);
    if !r.ok {
      StackTooFew(o1, supply, p, data);
      return;
    }
    StackNodes(o1, supply, p, o2, r.supply);
    HoldsStack(m1, r.mem, p, data);
    var l := HeadersIn(r.mem, r.supply, p, data, h, h.phnum);
    var o3;
    o3, segs := HeadersLoaded(r.mem, r.supply, o2, p, data, h, h.phnum, l);
    ConfinedTransitive(m1, o1, supply[1..], r.mem, o2, r.supply, l.mem, o3, l.supply, p);
    LoadSpent(m, supply, m1, l.mem, o3, l.supply);
    if l.outcome == Done {
      LoadedAll(l.mem, o3, l.supply, p, data, h, segs, |supply|);
      BuiltFromConfined(m, supply, cr3, m1, l.mem, o3, l.supply, data, segs);
      ProcessMade(m, supply, cr3, m1, l.mem, o3, l.supply);
      NodesTaken(l.mem, o3, l.supply, |supply|, segs);
    }
  }

  lemma StackLower()
    ensures LastPage(USER_STACK_START, USER_STACK_SIZE) < LAST_LOWER_PAGE
  {}
}
