/** Kernel stacks in the page tables: one PML4 slot, shared by every address space
    (`kernel/src/task/mod.rs`). */
module KernelStacks {
  import opened Words
  import opened PageTables
  import opened CloneTables
  import opened AddressSpaces
  import opened Scheduling

  const SLOT: nat := 508
  const SLOT_PAGES: nat := 0x800_0000      // pages below one PML4 entry
  const STACK_FLAGS: nat := 3              // PRESENT | WRITABLE

  /** The address of page `k` of the stack region. */
  function PageAddress(k: nat): nat {
    STACK_REGION_BASE + k * PAGE_SIZE
  }

  /** Page `k` belongs to the stack of one of the tasks `1..=n`: of the ten pages of a task's stride,
      the first is the guard and the last is left over. */
  predicate IsStackPage(k: nat, n: nat) {
    1 <= k / 10 <= n && 1 <= k % 10 <= 8
  }

  /** The pages of the stack region are those of the tasks' stacks. */
  lemma StackPages(id: nat, a: nat)
    requires STACK_REGION_BASE <= a
    ensures InStack(a, id) <==> var k := (a - STACK_REGION_BASE) / PAGE_SIZE; k / 10 == id && 1 <= k % 10 <= 8
  {
    var k := (a - STACK_REGION_BASE) / PAGE_SIZE;
    assert a - STACK_REGION_BASE == k * 4096 + (a - STACK_REGION_BASE) % 4096;
    assert k == 10 * (k / 10) + k % 10;
  }

  lemma StackPath(k: nat)
    requires k < SLOT_PAGES
    ensures FullPath(PathOf(PageAddress(k)), SLOT, SLOT + 1) && UPPER_HALF_START <= PageAddress(k) < TWO_64
    ensures PageAddress(k) / 0x1_0000_0000_0000 == 0xFFFF
            && PageAddress(k) / PAGE_SIZE == STACK_REGION_BASE / PAGE_SIZE + k
  {
    var r := k * 4096;
    assert r < 0x80_0000_0000;
    assert PageAddress(k) == 0x80_0000_0000 * (512 * 0xFFFF + SLOT) + r;
    assert PageAddress(k) / 0x80_0000_0000 == 512 * 0xFFFF + SLOT;
    assert PageAddress(k) == 0x1_0000_0000_0000 * 0xFFFF + (0x80_0000_0000 * SLOT + r);
  }

  lemma DistinctPages(k: nat, j: nat)
    requires k < SLOT_PAGES && j < SLOT_PAGES && k != j
    ensures PathOf(PageAddress(k)) != PathOf(PageAddress(j))
  {
    StackPath(k);
    StackPath(j);
    PathIdentifiesPage(PageAddress(k), PageAddress(j));
  }

  /** Exactly the task ids up to 13,421,771 have their whole stack below the anchor's PML4 entry. */
  lemma StackInSlot(id: nat)
    requires id >= 1
    ensures id <= MAX_TASK_ID <==> (forall a: nat :: InStack(a, id) ==> a < PageAddress(SLOT_PAGES))
    ensures id <= MAX_TASK_ID ==> forall a: nat :: InStack(a, id) ==> PathOf(a)[0] == SLOT
  {
    if id > MAX_TASK_ID {
      assert InStack(StackTop(id) - 1, id) && StackTop(id) - 1 >= PageAddress(SLOT_PAGES);
    } else {
      forall a: nat | InStack(a, id) ensures a < PageAddress(SLOT_PAGES) && PathOf(a)[0] == SLOT {
        SlotAddress(a);
      }
    }
  }

  lemma SlotAddress(a: nat)
    requires STACK_REGION_BASE <= a < PageAddress(SLOT_PAGES)
    ensures PathOf(a)[0] == SLOT
  {
    assert a == 0x80_0000_0000 * (512 * 0xFFFF + SLOT) + (a - STACK_REGION_BASE);
    assert a / 0x80_0000_0000 == 512 * 0xFFFF + SLOT;
  }

  /** In the slot exactly the anchor, the stacks of the tasks `1..=n`, and the first `extra` pages of
      the next stack are mapped, each present and writable and none open to user code. */
  ghost predicate StacksMapped(m: Memory, pml4: nat, n: nat, extra: nat) {
    forall k :: 0 <= k < SLOT_PAGES ==>
      var t := Translate(m, pml4, PageAddress(k));
      && (t.Some? <==> k == 0 || IsStackPage(k, n) || (k / 10 == n + 1 && 1 <= k % 10 <= extra))
      && (t.Some? ==> t.value.lo == 3 && t.value.hi == 0)
  }

  ghost predicate SameUpperHalf(m: Memory, q: nat, pml4: nat)
    requires q in m && pml4 in m
  {
    forall i :: 256 <= i < 512 ==> m[q][i] == m[pml4][i]
  }

  /** Address spaces that share the upper half with `pml4`, and are none of the frames in `area`,
      see every upper-half page that it sees. */
  ghost predicate SharedByAll(m: Memory, e: Memory, pml4: nat, area: set<nat>) {
    pml4 in m ==>
      forall q, va | q in m && q !in area && SameUpperHalf(m, q, pml4) && UPPER_HALF_START <= va < TWO_64 ::
        Translate(e, q, va) == Translate(e, pml4, va)
  }

  lemma StillShared(m: Memory, e: Memory, pml4: nat, area: set<nat>)
    requires pml4 in m && pml4 in e && e[pml4] == m[pml4] && SameOutside(m, e, area)
    ensures SharedByAll(m, e, pml4, area)
  {
    forall q, va | q in m && q !in area && SameUpperHalf(m, q, pml4) && UPPER_HALF_START <= va < TWO_64
      ensures Translate(e, q, va) == Translate(e, pml4, va)
    {
      UpperHalfShared(e, q, pml4, va);
    }
  }

  ghost function Area(owner: Owner, supply: seq<nat>): set<nat> {
    owner.Keys + Range(supply)
  }

  /** The tree only grew, and its pages hold what they held. */
  ghost predicate PagesKept(m: Memory, owner: Owner, e: Memory, owner': Owner) {
    && (forall f :: f in owner ==> f in owner' && owner'[f] == owner[f])
    && (forall f :: f in owner && |owner[f]| == 4 && f in m ==> f in e && e[f] == m[f])
  }

  lemma PagesKeptTwice(m: Memory, owner: Owner, e: Memory, owner': Owner, g: Memory, owner'': Owner)
    requires PagesKept(m, owner, e, owner') && PagesKept(e, owner', g, owner'')
    ensures PagesKept(m, owner, g, owner'')
  {}

  /** Page `k` was mapped, for the kernel only; the other pages translate as before, and nothing outside the
      tree and the allocator changed. */
  ghost predicate PageAdded(m: Memory, owner: Owner, supply: seq<nat>, e: Memory, owner': Owner, supply': seq<nat>,
                            pml4: nat, k: nat)
    requires k < SLOT_PAGES
  {
    && SameOutside(m, e, Area(owner, supply)) && Area(owner', supply') <= Area(owner, supply)
    && PagesKept(m, owner, e, owner')
    && KernelPage(Translate(e, pml4, PageAddress(k)))
    && forall j :: 0 <= j < SLOT_PAGES && j != k ==>
         Translate(e, pml4, PageAddress(j)) == Translate(m, pml4, PageAddress(j))
  }

  predicate KernelPage(t: Option<Word>) {
    t.Some? && t.value.lo == STACK_FLAGS && t.value.hi == 0
  }

  /** Every page of the region that was mapped keeps its frame and flags. */
  ghost predicate KeepsPages(m: Memory, e: Memory, pml4: nat) {
    forall j :: 0 <= j < SLOT_PAGES && Translate(m, pml4, PageAddress(j)).Some? ==>
      Translate(e, pml4, PageAddress(j)) == Translate(m, pml4, PageAddress(j))
  }

  lemma AddedKeeps(m0: Memory, m: Memory, owner: Owner, supply: seq<nat>, e: Memory, owner': Owner, supply': seq<nat>,
                   pml4: nat, k: nat)
    requires k < SLOT_PAGES && KeepsPages(m0, m, pml4) && Translate(m, pml4, PageAddress(k)) == None
    requires PageAdded(m, owner, supply, e, owner', supply', pml4, k)
    ensures KeepsPages(m0, e, pml4)
  {
    hide Translate;
  }

  /** Different pages of the region have different frames, so no two stacks share memory. */
  lemma PagesOwnFrames(m: Memory, owner: Owner, pml4: nat, k: nat, j: nat)
    requires Owned(m, owner, pml4, SLOT, SLOT + 1) && k < SLOT_PAGES && j < SLOT_PAGES && k != j
    requires Translate(m, pml4, PageAddress(k)).Some? && Translate(m, pml4, PageAddress(j)).Some?
    ensures Translate(m, pml4, PageAddress(k)).value.frame != Translate(m, pml4, PageAddress(j)).value.frame
  {
    hide Owned, WalkTable, PathOf;
    DistinctPages(k, j);
    PageFrame(m, owner, pml4, k);
    PageFrame(m, owner, pml4, j);
  }

  lemma PageFrame(m: Memory, owner: Owner, pml4: nat, k: nat)
    requires Owned(m, owner, pml4, SLOT, SLOT + 1) && k < SLOT_PAGES && Translate(m, pml4, PageAddress(k)).Some?
    ensures var f := Translate(m, pml4, PageAddress(k)).value.frame; f in owner && owner[f] == PathOf(PageAddress(k))
  {
    hide WalkTable, PathOf;
    var path := PathOf(PageAddress(k));
    StackPath(k);
    RootWalk(m, owner, pml4, SLOT, SLOT + 1, path);
    WalkEndsAtOwner(m, owner, pml4, SLOT, SLOT + 1, pml4, path);
    assert owner[pml4] + path == path;
  }

  lemma GrownPageAdded(m: Memory, owner: Owner, supply: seq<nat>, e: Memory, owner': Owner, supply': seq<nat>,
                       pml4: nat, k: nat)
    requires k < SLOT_PAGES && Grown(m, owner, Range(supply), e, owner', pml4, SLOT, SLOT + 1, PathOf(PageAddress(k)))
    requires forall f :: f in supply' ==> f in supply
    requires KernelPage(Translate(e, pml4, PageAddress(k)))
    ensures PageAdded(m, owner, supply, e, owner', supply', pml4, k)
  {
    hide WalkTable, PathOf;
    forall j | 0 <= j < SLOT_PAGES && j != k
      ensures Translate(e, pml4, PageAddress(j)) == Translate(m, pml4, PageAddress(j))
    {
      StackPath(j);
      DistinctPages(k, j);
    }
  }

  lemma GrownSameOutside(m: Memory, owner: Owner, supply: seq<nat>, e: Memory, owner': Owner, supply': seq<nat>,
                         pml4: nat, path: seq<nat>)
    requires Grown(m, owner, Range(supply), e, owner', pml4, SLOT, SLOT + 1, path)
             && forall f :: f in supply' ==> f in supply
    ensures SameOutside(m, e, Area(owner, supply)) && Area(owner', supply') <= Area(owner, supply)
  {
    hide WalkTable;
  }

  /** Mapped; no frame left for the page; none for a table above it. */
  datatype PageResult = PageDone | NoPageFrame | NoTableFrame

  /** Allocates a frame and maps page `k` of the region, writable, for the kernel only. */
  method MapStackPage(space: OffsetPageTable, k: nat) returns (r: PageResult, frame: nat)
    requires space.Valid() && space.lo == SLOT && space.hi == SLOT + 1 && k < SLOT_PAGES
    requires Translate(space.phys.mem, space.pml4, PageAddress(k)) == None
    modifies space`owner, space.phys
    ensures space.Valid()
    ensures SameOutside(old(space.phys.mem), space.phys.mem, Area(old(space.owner), old(space.phys.supply)))
    ensures Area(space.owner, space.phys.supply) <= Area(old(space.owner), old(space.phys.supply))
    ensures r == NoPageFrame <==> old(space.phys.supply) == []
    ensures r != PageDone ==> space.phys.supply == []
    ensures frame < TWO_40
    ensures r == PageDone ==>
              && PageAdded(old(space.phys.mem), old(space.owner), old(space.phys.supply),
                           space.phys.mem, space.owner, space.phys.supply, space.pml4, k)
              && Translate(space.phys.mem, space.pml4, PageAddress(k)).Some?
              && Translate(space.phys.mem, space.pml4, PageAddress(k)).value.frame == frame
              && Linked(space.phys.mem, space.pml4, SLOT, STACK_FLAGS)
              && Granted(space.phys.mem, space.pml4, PathOf(PageAddress(k)), STACK_FLAGS)
    ensures Linked(old(space.phys.mem), space.pml4, SLOT, STACK_FLAGS) ==>
              space.pml4 in space.phys.mem && space.phys.mem[space.pml4] == old(space.phys.mem)[space.pml4]
  {
    hide Owned, Grown, ValidSupply, WalkTable, PathOf, Linked, Tree, Granted, Recorded, Prefixes;
    ghost var m, owner, supply := space.phys.mem, space.owner, space.phys.supply;
    OwnersInMemory(m, owner, space.pml4, SLOT, SLOT + 1);
    if space.phys.supply == [] {
      return NoPageFrame, 0;
    }
    TakeFrame(m, supply, owner, space.pml4, SLOT, SLOT + 1);
    StackPath(k);
    var path := PathOf(PageAddress(k));
    frame := space.phys.supply[0];
    space.phys.supply := space.phys.supply[1..];
    var mapped := space.MapTo(path, frame, STACK_FLAGS, 0);
    GrownSameOutside(m, owner, supply, space.phys.mem, space.owner, space.phys.supply, space.pml4, path);
    if mapped != Mapped {
      return NoTableFrame, frame;
    }
    GrownPageAdded(m, owner, supply, space.phys.mem, space.owner, space.phys.supply, space.pml4, k);
    r := PageDone;
  }

  /** `init_kernel_stack_region`: maps the anchor unless it is mapped, which puts the slot's entry into the PML4
      before any process copies it. With no frame for the anchor it panics; without one for a table it goes on. */
  method InitKernelStackRegion(space: OffsetPageTable) returns (r: PageResult)
    requires space.Valid() && space.lo == SLOT && space.hi == SLOT + 1
    modifies space`owner, space.phys
    ensures space.Valid() && (r == PageDone ==> KeepsPages(old(space.phys.mem), space.phys.mem, space.pml4))
    ensures r == PageDone ==> Translate(space.phys.mem, space.pml4, STACK_REGION_BASE).Some?
    ensures old(Translate(space.phys.mem, space.pml4, STACK_REGION_BASE)).Some? ==>
              r == PageDone && space.phys.mem == old(space.phys.mem)
    ensures r == NoPageFrame <==>
            old(Translate(space.phys.mem, space.pml4, STACK_REGION_BASE)).None? && old(space.phys.supply) == []
    ensures r == PageDone && old(RegionEmpty(space.phys.mem, space.pml4)) ==>
              StacksMapped(space.phys.mem, space.pml4, 0, 0) && Linked(space.phys.mem, space.pml4, SLOT, STACK_FLAGS)
    ensures r != PageDone ==> space.phys.supply == []
  {
    hide WalkTable, PathOf, Owned, Linked, Tree, Granted;
    assert PageAddress(0) == STACK_REGION_BASE;
    if Translate(space.phys.mem, space.pml4, STACK_REGION_BASE).Some? {
      return PageDone;
    }
    ghost var m, o, s := space.phys.mem, space.owner, space.phys.supply;
    var frame;
    r, frame := MapStackPage(space, 0);
    if r == PageDone {
      AddedKeeps(m, m, o, s, space.phys.mem, space.owner, space.phys.supply, space.pml4, 0);
    }
  }

  ghost predicate RegionEmpty(m: Memory, pml4: nat) {
    forall k :: 0 <= k < SLOT_PAGES ==> Translate(m, pml4, PageAddress(k)) == None
  }

  /** From `m` to `e` the first `i` pages of the stack of task `id` were mapped, all earlier stacks being there. The
      pages mapped before keep their frames, the PML4 is as it was, and nothing outside the tree and the allocator
      was written. */
  ghost predicate StackMapped(m: Memory, owner: Owner, supply: seq<nat>, e: Memory, owner': Owner, supply': seq<nat>,
                              pml4: nat, id: nat, i: nat)
    requires id >= 1
  {
    && TreeReady(e, supply', owner', pml4, SLOT, SLOT + 1)
    && StacksMapped(e, pml4, id - 1, i) && KeepsPages(m, e, pml4) && PagesKept(m, owner, e, owner')
    && SameOutside(m, e, Area(owner, supply)) && Area(owner', supply') <= Area(owner, supply)
    && pml4 in m && pml4 in e && e[pml4] == m[pml4]
  }

  lemma StackStart(m: Memory, owner: Owner, supply: seq<nat>, pml4: nat, id: nat)
    requires id >= 1 && TreeReady(m, supply, owner, pml4, SLOT, SLOT + 1) && StacksMapped(m, pml4, id - 1, 0)
    ensures StackMapped(m, owner, supply, m, owner, supply, pml4, id, 0)
  {
    hide Tree, Translate;
  }

  lemma StackStep(m0: Memory, o0: Owner, s0: seq<nat>, m: Memory, owner: Owner, supply: seq<nat>,
                  e: Memory, owner': Owner, supply': seq<nat>, pml4: nat, id: nat, i: nat)
    requires 1 <= id <= MAX_TASK_ID && i < 8 && StackMapped(m0, o0, s0, m, owner, supply, pml4, id, i)
    requires TreeReady(e, supply', owner', pml4, SLOT, SLOT + 1) && pml4 in e && e[pml4] == m[pml4]
    requires 10 * id + 1 + i < SLOT_PAGES && PageAdded(m, owner, supply, e, owner', supply', pml4, 10 * id + 1 + i)
    ensures StackMapped(m0, o0, s0, e, owner', supply', pml4, id, i + 1)
  {
    hide TreeReady, Translate, StacksMapped, KeepsPages, PagesKept;
    PagesKeptTwice(m0, o0, m, owner, e, owner');
    NextPageFree(m, pml4, id, i);
    AddedKeeps(m0, m, owner, supply, e, owner', supply', pml4, 10 * id + 1 + i);
    OnePageMore(m, owner, supply, e, owner', supply', pml4, id, i);
    SameOutsideTransitive(m0, m, e, Area(o0, s0), Area(owner, supply), Area(o0, s0));
  }

  lemma StackNext(m0: Memory, o0: Owner, s0: seq<nat>, m: Memory, owner: Owner, supply: seq<nat>, pml4: nat, id: nat,
                  i: nat)
    requires 1 <= id <= MAX_TASK_ID && i < 8 && StackMapped(m0, o0, s0, m, owner, supply, pml4, id, i)
    ensures 10 * id + 1 + i < SLOT_PAGES && Translate(m, pml4, PageAddress(10 * id + 1 + i)) == None
    ensures TreeReady(m, supply, owner, pml4, SLOT, SLOT + 1) && pml4 in m && pml4 in m0 && m[pml4] == m0[pml4]
  {
    hide TreeReady, Translate, StacksMapped, KeepsPages;
    NextPageFree(m, pml4, id, i);
  }

  /** A whole stack was mapped. */
  ghost predicate StackDone(m: Memory, owner: Owner, supply: seq<nat>, e: Memory, owner': Owner, supply': seq<nat>,
                            pml4: nat, id: nat)
  {
    && TreeReady(e, supply', owner', pml4, SLOT, SLOT + 1)
    && StacksMapped(e, pml4, id, 0) && Linked(e, pml4, SLOT, STACK_FLAGS) && KeepsPages(m, e, pml4)
    && SameOutside(m, e, Area(owner, supply)) && Area(owner', supply') <= Area(owner, supply)
    && PagesKept(m, owner, e, owner') && pml4 in m && pml4 in e && e[pml4] == m[pml4]
  }

  lemma StackEnd(m: Memory, owner: Owner, supply: seq<nat>, e: Memory, owner': Owner, supply': seq<nat>, pml4: nat,
                 id: nat)
    requires id >= 1 && StackMapped(m, owner, supply, e, owner', supply', pml4, id, 8)
             && Linked(m, pml4, SLOT, STACK_FLAGS)
    ensures StackDone(m, owner, supply, e, owner', supply', pml4, id)
    ensures SharedByAll(m, e, pml4, Area(owner, supply))
  {
    hide TreeReady, Translate, StacksMapped, KeepsPages, Area;
    WholeStack(e, pml4, id);
    LinkedKept(m, e, pml4, SLOT, STACK_FLAGS);
    StillShared(m, e, pml4, Area(owner, supply));
  }

  /** The stack pages that `Task::new` maps for task `id`: eight, between two unmapped ones. The PML4 itself
      does not change, so every address space that shares the upper half sees them. */
  method MapKernelStack(space: OffsetPageTable, id: nat) returns (ok: bool)
    requires space.Valid() && space.lo == SLOT && space.hi == SLOT + 1 && 1 <= id <= MAX_TASK_ID
    requires StacksMapped(space.phys.mem, space.pml4, id - 1, 0)
             && Linked(space.phys.mem, space.pml4, SLOT, STACK_FLAGS)
    modifies space`owner, space.phys
    ensures space.Valid()
    ensures ok ==>
              && StackDone(old(space.phys.mem), old(space.owner), old(space.phys.supply),
                           space.phys.mem, space.owner, space.phys.supply, space.pml4, id)
              && SharedByAll(old(space.phys.mem), space.phys.mem, space.pml4,
                             Area(old(space.owner), old(space.phys.supply)))
    ensures !ok ==> space.phys.supply == []
  {
    hide Owned, WalkTable, PathOf, Tree, PageAdded, StacksMapped, KeepsPages, StackMapped, StackDone, Linked,
         SharedByAll, Granted;
    ghost var m, owner, supply := space.phys.mem, space.owner, space.phys.supply;
    StackStart(m, owner, supply, space.pml4, id);
    var i := 0;
    while i < 8
      invariant i <= 8 && space.Valid()
      invariant StackMapped(m, owner, supply, space.phys.mem, space.owner, space.phys.supply, space.pml4, id, i)
    {
      ghost var e, o, s := space.phys.mem, space.owner, space.phys.supply;
      StackNext(m, owner, supply, e, o, s, space.pml4, id, i);
      LinkedKept(m, e, space.pml4, SLOT, STACK_FLAGS);
      var r, frame := MapStackPage(space, 10 * id + 1 + i);
      if r != PageDone {
        return false;
      }
      StackStep(m, owner, supply, e, o, s, space.phys.mem, space.owner, space.phys.supply, space.pml4, id, i);
      i := i + 1;
    }
    StackEnd(m, owner, supply, space.phys.mem, space.owner, space.phys.supply, space.pml4, id);
    ok := true;
  }

  // ---- The stack of a user task ----

  /** The tree below the slot as seen from another PML4 with the same entry there. */
  ghost function Rerooted(owner: Owner, pml4: nat, q: nat): Owner {
    (owner - {pml4})[q := []]
  }

  lemma RerootedOwned(m: Memory, owner: Owner, pml4: nat, q: nat)
    requires Owned(m, owner, pml4, SLOT, SLOT + 1) && q in m && q !in owner && m[q][SLOT] == m[pml4][SLOT]
    ensures Owned(m, Rerooted(owner, pml4, q), q, SLOT, SLOT + 1)
  {
    var owner' := Rerooted(owner, pml4, q);
    forall f, i | f in owner' && |owner'[f]| <= 3 && 0 <= i < 512 && Managed(owner'[f], i, SLOT, SLOT + 1)
      && !Unused(m[f][i])
      ensures LeadsTo(owner', owner'[f], i, m[f][i])
    {
      UsedEntry(m, owner, pml4, SLOT, SLOT + 1, if f == q then pml4 else f, i);
    }
  }

  lemma RerootedTree(m: Memory, owner: Owner, pml4: nat, q: nat)
    requires Owned(m, owner, pml4, SLOT, SLOT + 1) && Tree(m, owner)
    requires q in m && q !in owner && m[q][SLOT] == m[pml4][SLOT]
    ensures Tree(m, Rerooted(owner, pml4, q))
  {
    hide Recorded, Owned;
    var owner' := Rerooted(owner, pml4, q);
    OwnersInMemory(m, owner, pml4, SLOT, SLOT + 1);
    RootPath(m, owner, pml4);
    forall f, g | f in owner' && g in owner' && Below(owner'[f], owner'[g])
      ensures f in m && Hangs(m[f], owner'[g], g) {
      HangsOne(m, owner, if f == q then pml4 else f, g);
    }
    forall g | g in owner' && owner'[g] != [] ensures Recorded(owner', owner'[g][..|owner'[g]| - 1]) {
      ClosedOne(owner, g);
      RerootedRecorded(owner, pml4, q, owner[g][..|owner[g]| - 1]);
    }
  }

  lemma RootPath(m: Memory, owner: Owner, pml4: nat)
    requires Owned(m, owner, pml4, SLOT, SLOT + 1)
    ensures pml4 in owner && owner[pml4] == []
    ensures forall f :: f in owner && f != pml4 ==> owner[f] != [] && owner[f][0] == SLOT
  {}

  lemma RerootedRecorded(owner: Owner, pml4: nat, q: nat, p: seq<nat>)
    requires Recorded(owner, p) && pml4 in owner && owner[pml4] == [] && q !in owner
    ensures Recorded(Rerooted(owner, pml4, q), p)
  {
    var f :| f in owner && owner[f] == p;
    var owner' := Rerooted(owner, pml4, q);
    assert owner'[if f == pml4 then q else f] == p;
  }

  lemma RerootedReady(m: Memory, owner: Owner, supply: seq<nat>, pml4: nat, q: nat)
    requires TreeReady(m, supply, owner, pml4, SLOT, SLOT + 1) && q in m && q !in Area(owner, supply)
             && m[q][SLOT] == m[pml4][SLOT]
    ensures TreeReady(m, supply, Rerooted(owner, pml4, q), q, SLOT, SLOT + 1)
  {
    hide Owned, Tree;
    RerootedOwned(m, owner, pml4, q);
    RerootedTree(m, owner, pml4, q);
  }

  /** A page of the slot looks the same from both PML4s. */
  lemma SeenAlike(m: Memory, pml4: nat, q: nat, k: nat)
    requires k < SLOT_PAGES && pml4 in m && q in m && m[q][SLOT] == m[pml4][SLOT]
    ensures Translate(m, q, PageAddress(k)) == Translate(m, pml4, PageAddress(k))
    ensures Granted(m, q, PathOf(PageAddress(k)), STACK_FLAGS) == Granted(m, pml4, PathOf(PageAddress(k)), STACK_FLAGS)
  {
    hide PathOf, Descend;
    StackPath(k);
  }

  /** The stack pages that `Task::new_user` maps for task `id` of the process with PML4 `q`: each is mapped through the
      kernel's PML4 and then again through `q`, where it is already there. Both errors are ignored. `refused` counts
      the second mappings that were: all of them, and they change nothing. */
  method MapUserTaskStack(space: OffsetPageTable, q: nat, id: nat) returns (ok: bool, refused: nat)
    requires space.Valid() && space.lo == SLOT && space.hi == SLOT + 1 && 1 <= id <= MAX_TASK_ID
    requires StacksMapped(space.phys.mem, space.pml4, id - 1, 0)
             && Linked(space.phys.mem, space.pml4, SLOT, STACK_FLAGS)
    requires space.pml4 in space.phys.mem && q in space.phys.mem && q !in Area(space.owner, space.phys.supply)
    requires space.phys.mem[q][SLOT] == space.phys.mem[space.pml4][SLOT]
    modifies space`owner, space.phys
    ensures space.Valid()
    ensures ok ==>
              && refused == 8
              && StackDone(old(space.phys.mem), old(space.owner), old(space.phys.supply),
                           space.phys.mem, space.owner, space.phys.supply, space.pml4, id)
              && SharedByAll(old(space.phys.mem), space.phys.mem, space.pml4,
                             Area(old(space.owner), old(space.phys.supply)))
    ensures !ok ==> space.phys.supply == []
  {
    hide Owned, WalkTable, PathOf, Tree, PageAdded, StacksMapped, KeepsPages, StackMapped, StackDone, Linked,
         SharedByAll, Granted;
    ghost var m, owner, supply := space.phys.mem, space.owner, space.phys.supply;
    StackStart(m, owner, supply, space.pml4, id);
    refused := 0;
    var i := 0;
    while i < 8
      invariant i <= 8 && refused == i && space.Valid()
      invariant StackMapped(m, owner, supply, space.phys.mem, space.owner, space.phys.supply, space.pml4, id, i)
    {
      ghost var e, o, s := space.phys.mem, space.owner, space.phys.supply;
      StackNext(m, owner, supply, e, o, s, space.pml4, id, i);
      LinkedKept(m, e, space.pml4, SLOT, STACK_FLAGS);
      var k := 10 * id + 1 + i;
      var r, frame := MapStackPage(space, k);
      if r != PageDone {
        return false, refused;
      }
      StackStep(m, owner, supply, e, o, s, space.phys.mem, space.owner, space.phys.supply, space.pml4, id, i);
      OutsideKept(m, owner, supply, space.phys.mem, space.owner, space.phys.supply, space.pml4, id, i + 1, q);
      var again := MapAgain(space, q, k, frame);
      if again == AlreadyMapped {
        refused := refused + 1;
      }
      i := i + 1;
    }
    StackEnd(m, owner, supply, space.phys.mem, space.owner, space.phys.supply, space.pml4, id);
    ok := true;
  }

  lemma OutsideKept(m: Memory, owner: Owner, supply: seq<nat>, e: Memory, owner': Owner, supply': seq<nat>,
                    pml4: nat, id: nat, i: nat, q: nat)
    requires id >= 1 && StackMapped(m, owner, supply, e, owner', supply', pml4, id, i) && q in m
             && q !in Area(owner, supply)
    ensures q in e && e[q] == m[q] && q !in Area(owner', supply') && pml4 in m && pml4 in e && e[pml4] == m[pml4]
  {
    hide TreeReady, StacksMapped, KeepsPages;
  }

  /** The second `map_to` of `Task::new_user`: refused, and nothing changes. */
  method MapAgain(space: OffsetPageTable, q: nat, k: nat, frame: nat) returns (r: MapResult)
    requires space.Valid() && space.lo == SLOT && space.hi == SLOT + 1 && k < SLOT_PAGES
    requires space.pml4 in space.phys.mem && q in space.phys.mem && q !in Area(space.owner, space.phys.supply)
    requires space.phys.mem[q][SLOT] == space.phys.mem[space.pml4][SLOT]
    requires Translate(space.phys.mem, space.pml4, PageAddress(k)).Some?
    requires frame < TWO_40
    requires Granted(space.phys.mem, space.pml4, PathOf(PageAddress(k)), STACK_FLAGS)
    modifies space.phys
    ensures r == AlreadyMapped
    ensures space.phys.mem == old(space.phys.mem) && space.phys.supply == old(space.phys.supply) && space.Valid()
  {
    hide Owned, Grown, WalkTable, PathOf, Linked, Tree, Granted, Recorded, Prefixes, Rerooted;
    RerootedReady(space.phys.mem, space.owner, space.phys.supply, space.pml4, q);
    SeenAlike(space.phys.mem, space.pml4, q, k);
    StackPath(k);
    var mapper := new OffsetPageTable.Over(space.phys, q, SLOT, SLOT + 1, Rerooted(space.owner, space.pml4, q));
    r := mapper.MapTo(PathOf(PageAddress(k)), frame, STACK_FLAGS, 0);
  }

  lemma NextPageFree(m: Memory, pml4: nat, id: nat, i: nat)
    requires 1 <= id <= MAX_TASK_ID && i < 8 && StacksMapped(m, pml4, id - 1, i)
    ensures 10 * id + 1 + i < SLOT_PAGES && Translate(m, pml4, PageAddress(10 * id + 1 + i)) == None
  {
    var k := 10 * id + 1 + i;
    assert k / 10 == id && k % 10 == 1 + i;
  }

  lemma OnePageMore(m: Memory, owner: Owner, supply: seq<nat>, e: Memory, owner': Owner, supply': seq<nat>, pml4: nat,
                    id: nat, i: nat)
    requires 1 <= id <= MAX_TASK_ID && i < 8 && StacksMapped(m, pml4, id - 1, i)
    requires PageAdded(m, owner, supply, e, owner', supply', pml4, 10 * id + 1 + i)
    ensures StacksMapped(e, pml4, id - 1, i + 1)
  {
    hide Translate;
    forall k | 0 <= k < SLOT_PAGES
      ensures (k == 10 * id + 1 + i) == (k / 10 == id && k % 10 == i + 1)
    {}
  }

  lemma WholeStack(m: Memory, pml4: nat, id: nat)
    requires id >= 1 && StacksMapped(m, pml4, id - 1, 8)
    ensures StacksMapped(m, pml4, id, 0)
  {
    hide Translate;
  }

  /** The pages on either side of a stack are never mapped, whatever tasks exist. */
  lemma GuardPages(m: Memory, pml4: nat, n: nat, id: nat)
    requires StacksMapped(m, pml4, n, 0) && 1 <= id <= MAX_TASK_ID
    ensures Translate(m, pml4, StackBottom(id) - PAGE_SIZE) == None
    ensures Translate(m, pml4, StackTop(id)) == None
  {
    hide Translate;
    assert StackBottom(id) - PAGE_SIZE == PageAddress(10 * id) && StackTop(id) == PageAddress(10 * id + 9);
    assert 10 * id % 10 == 0 && (10 * id + 9) % 10 == 9;
    assert !IsStackPage(10 * id, n) && !IsStackPage(10 * id + 9, n);
    assert 10 * id / 10 == id && (10 * id + 9) / 10 == id;
  }
}
