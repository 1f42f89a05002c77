/** Whether the MMU lets user code execute a page: no entry on the way to it may forbid that
    (`kernel/src/process.rs`, `kernel/src/memory/paging.rs`). */
module PageFetch {
  import opened Words
  import opened PageTables
  import opened CloneTables
  import opened AddressSpaces
  import opened UserMemory
  import opened Bytes
  import opened KernelElf
  import opened LoadModel
  import opened ProcessLoading
  import opened UserViews
  import PageAccess

  /** No entry above the last level has a flag in its upper bits, NO_EXECUTE among them. */
  ghost predicate Plain(m: Memory, owner: Owner) {
    forall f, i :: f in owner && f in m && |owner[f]| <= 2 && 0 <= i < 512 && Managed(owner[f], i, 0, 256) ==>
      m[f][i].hi == 0
  }

  // ---- Mapping a page ----

  predicate HiKept(w: Word, v: Word) {
    v.hi == w.hi || v.hi == 0
  }

  /** Entries keep their upper flags or lose them, and the frames taken hold none. */
  ghost predicate PlainStep(m: Memory, supply: seq<nat>, e: Memory, supply': seq<nat>) {
    && (forall f :: f in m && f !in supply ==> f in e && forall i :: 0 <= i < 512 ==> HiKept(m[f][i], e[f][i]))
    && (forall f :: f in supply && f !in supply' ==> f in e && forall i :: 0 <= i < 512 ==> e[f][i].hi == 0)
    && e.Keys == m.Keys && (forall f :: f in supply' ==> f in supply)
  }

  lemma PlainTwice(m: Memory, supply: seq<nat>, e: Memory, supply': seq<nat>, g: Memory, supply'': seq<nat>)
    requires PlainStep(m, supply, e, supply') && PlainStep(e, supply', g, supply'')
    ensures PlainStep(m, supply, g, supply'')
  {
    forall f, i | f in m && f !in supply && 0 <= i < 512 ensures f in g && HiKept(m[f][i], g[f][i]) {
      assert HiKept(m[f][i], e[f][i]) && HiKept(e[f][i], g[f][i]);
    }
    forall f, i | f in supply && f !in supply'' && 0 <= i < 512 ensures f in g && g[f][i].hi == 0 {
      if f !in supply' {
        assert HiKept(e[f][i], g[f][i]);
      }
    }
  }

  lemma EntryPlain(m: Memory, supply: seq<nat>, table: nat, i: nat, w: Word)
    requires table in m && i < 512 && HiKept(m[table][i], w)
    ensures PlainStep(m, supply, WriteEntry(m, table, i, w), supply)
  {}

  lemma LinkPlain(m: Memory, supply: seq<nat>, table: nat, i: nat, w: Word)
    requires table in m && i < 512 && w.hi == 0 && ValidSupply(m, supply) && supply != []
    ensures PlainStep(m, supply, WriteEntry(m, table, i, w)[supply[0] := EmptyTable()], supply[1..])
  {
    FirstInSupply(m, supply);
    assert supply == [supply[0]] + supply[1..];
  }

  lemma NextTablePlain(m: Memory, supply: seq<nat>, table: nat, i: nat, flags: nat, s: NextStep)
    requires table in m && i < 512 && flags < TWO_12 && Bit(flags, PRESENT) && ValidSupply(m, supply)
    requires s == NextTable(m, supply, table, i, flags)
    ensures PlainStep(m, supply, s.mem, s.supply)
  {
    hide ValidSupply, PlainStep, OrLow, ParentFlags, WriteEntry, HasLow;
    var entry := m[table][i];
    SamePlain(m, supply);
    if Unused(entry) {
      if supply != [] {
        FirstInSupply(m, supply);
        LinkPlain(m, supply, table, i, Word(ParentFlags(flags), supply[0], 0));
      }
    } else {
      EntryPlain(m, supply, table, i, Word(OrLow(entry.lo, flags), entry.frame, entry.hi));
    }
  }

  lemma SamePlain(m: Memory, supply: seq<nat>)
    ensures PlainStep(m, supply, m, supply)
  {}

  lemma ReachTablePlain(m: Memory, supply: seq<nat>, pml4: nat, path: seq<nat>, flags: nat, s: NextStep)
    requires pml4 in m && |path| == 4 && ValidPath(path) && flags < TWO_12 && Bit(flags, PRESENT)
    requires ValidSupply(m, supply) && s == ReachTable(m, supply, pml4, path, flags)
    ensures PlainStep(m, supply, s.mem, s.supply)
  {
    hide ValidSupply, PlainStep, NextTable;
    var a := NextTable(m, supply, pml4, path[0], flags);
    NextTablePlain(m, supply, pml4, path[0], flags, a);
    if a.next.Table? {
      var b := NextTable(a.mem, a.supply, a.next.frame, path[1], flags);
      NextTablePlain(a.mem, a.supply, a.next.frame, path[1], flags, b);
      PlainTwice(m, supply, a.mem, a.supply, b.mem, b.supply);
      if b.next.Table? {
        NextTablePlain(b.mem, b.supply, b.next.frame, path[2], flags, s);
        PlainTwice(m, supply, b.mem, b.supply, s.mem, s.supply);
      }
    }
  }

  /** Before the page itself is linked no new upper flag is there. */
  lemma PlainTables(m: Memory, supply: seq<nat>, owner: Owner, c: Memory, supply': seq<nat>, owner': Owner, frame: nat)
    requires PlainStep(m, supply, c, supply') && Plain(m, owner)
    requires forall f :: f in supply ==> f !in owner
    requires forall f :: f in supply' ==> f !in owner'
    requires forall f :: f in owner ==> f in owner' && owner'[f] == owner[f] && f in m
    requires forall f :: f in owner' ==> f in owner || f in supply || f == frame
    requires frame in owner' && |owner'[frame]| == 4
    ensures Plain(c, owner')
  {
    forall f, i | f in owner' && f in c && |owner'[f]| <= 2 && 0 <= i < 512 && Managed(owner'[f], i, 0, 256)
      ensures c[f][i].hi == 0
    {
      if f in owner {
        assert HiKept(m[f][i], c[f][i]);
      }
    }
  }

  /** The entry of a page is in a table of the last level. */
  lemma LeafTable(m: Memory, owner: Owner, pml4: nat, table: nat, path: seq<nat>, w: Word)
    requires Owned(m, owner, pml4, 0, 256) && FullPath(path, 0, 256) && WalkTable(m, pml4, path) == Some(w)
    requires table in owner && |owner[table]| <= 3 && table in m && m[table][path[3]] == w && Bit(w.lo, PRESENT)
    requires Managed(owner[table], path[3], 0, 256)
    ensures |owner[table]| == 3 && w.frame in owner && |owner[w.frame]| == 4
  {
    hide WalkTable;
    BitOfZero(PRESENT);
    RootWalk(m, owner, pml4, 0, 256, path);
    WalkEndsAtOwner(m, owner, pml4, 0, 256, pml4, path);
    UsedEntry(m, owner, pml4, 0, 256, table, path[3]);
  }

  lemma LeafPlain(c: Memory, owner: Owner, pml4: nat, table: nat, path: seq<nat>, w: Word)
    requires table in c && FullPath(path, 0, 256) && Plain(c, owner) && Bit(w.lo, PRESENT)
    requires Owned(WriteEntry(c, table, path[3], w), owner, pml4, 0, 256)
    requires WalkTable(WriteEntry(c, table, path[3], w), pml4, path) == Some(w)
    ensures Plain(WriteEntry(c, table, path[3], w), owner)
  {
    hide WalkTable, Owned;
    var e := WriteEntry(c, table, path[3], w);
    forall f, i | f in owner && f in e && |owner[f]| <= 2 && 0 <= i < 512 && Managed(owner[f], i, 0, 256)
      ensures e[f][i].hi == 0
    {
      if f == table && i == path[3] {
        LeafTable(e, owner, pml4, table, path, w);
      }
    }
  }

  lemma PageInPlain(m: Memory, supply: seq<nat>, owner: Owner, pml4: nat, page: nat, f: Flags, r: Mapping)
    returns (owner': Owner)
    requires TreeReady(m, supply, owner, pml4, 0, 256) && pml4 in m && page * PAGE_SIZE < LOWER_HALF_END
    requires r == PageIn(m, supply, pml4, page, f) && r.ok && Plain(m, owner)
    ensures TreeReady(r.mem, r.supply, owner', pml4, 0, 256) && Plain(r.mem, owner')
  {
    hide Owned, ValidSupply, WalkTable, PathOf, Tree, Prefixes, Locate, Granted, Linked, Plain, ReachTable, Recorded,
         PlainStep, NewNodes;
    var path := PathOf(page * PAGE_SIZE);
    LowerPath(page * PAGE_SIZE);
    owner' := owner;
    if Locate(m, pml4, path) == Absent {
      LocateLower(m, owner, pml4, page * PAGE_SIZE);
      TakeFrame(m, supply, owner, pml4, 0, 256);
      var w := Word(f.lo, supply[0], f.hi);
      var rest := supply[1..];
      var s := MapPath(m, rest, pml4, path, supply[0], f.lo, f.hi);
      owner' := MapPathGrown(m, rest, owner, pml4, 0, 256, path, w, s);
      var c := ReachTable(m, rest, pml4, path, f.lo);
      ReachTablePlain(m, rest, pml4, path, f.lo, c);
      OwnersInMemory(m, owner, pml4, 0, 256);
      RootWalk(s.mem, owner', pml4, 0, 256, path);
      WalkEndsAtOwner(s.mem, owner', pml4, 0, 256, pml4, path);
      PlainTables(m, rest, owner, c.mem, c.supply, owner', w.frame);
      LeafPlain(c.mem, owner', pml4, c.next.frame, path, w);
    }
  }

  // ---- Loading ----

  lemma {:induction false} PagesInPlain(m: Memory, supply: seq<nat>, owner: Owner, pml4: nat, page: nat, last: nat,
                                        f: Flags, r: Mapping)
    returns (owner': Owner)
    requires TreeReady(m, supply, owner, pml4, 0, 256) && pml4 in m && last < LAST_LOWER_PAGE
    requires r == PagesIn(m, supply, pml4, page, last, f) && r.ok && Plain(m, owner)
    ensures TreeReady(r.mem, r.supply, owner', pml4, 0, 256) && Plain(r.mem, owner')
    decreases last + 1 - page
  {
    hide TreeReady, Plain, PageIn;
    owner' := owner;
    if page <= last {
      ReadySound(m, supply, owner, pml4);
      var a := PageIn(m, supply, pml4, page, f);
      var o1 := PageInPlain(m, supply, owner, pml4, page, f, a);
      owner' := PagesInPlain(a.mem, a.supply, o1, pml4, page + 1, last, f, r);
    }
  }

  lemma UserEntryPlain(m: Memory, owner: Owner, pml4: nat, i: nat)
    requires pml4 in m && i < 512 && Plain(m, owner)
    ensures Plain(WriteEntry(m, pml4, i, UserEntry(m[pml4][i])), owner)
  {
    hide UserEntry;
  }

  lemma RegionInPlain(m: Memory, supply: seq<nat>, owner: Owner, pml4: nat, start: nat, size: nat, f: Flags, r: Mapping)
    returns (owner': Owner)
    requires TreeReady(m, supply, owner, pml4, 0, 256) && pml4 in m && size > 0
    requires LastPage(start, size) < LAST_LOWER_PAGE && r == RegionIn(m, supply, pml4, start, size, f) && r.ok
    requires Plain(m, owner)
    ensures TreeReady(r.mem, r.supply, owner', pml4, 0, 256) && Plain(r.mem, owner')
  {
    hide TreeReady, Plain, PagesIn, Confined, RegionMapped, Filled, TooFew, PathOf, RegionNodes, UserEntry, WriteEntry;
    ReadySound(m, supply, owner, pml4);
    var first, last := start / PAGE_SIZE, LastPage(start, size);
    var a := PagesIn(m, supply, pml4, first, last, f);
    owner' := PagesInPlain(m, supply, owner, pml4, first, last, f, a);
    var o1 := PagesExtended(m, supply, owner, pml4, first, last, f, a);
    RegionHas(m, a.mem, pml4, first, last, f, start);
    GrantExtended(a.mem, a.supply, owner', pml4, start, f);
    UserEntryPlain(a.mem, owner', pml4, PathOf(start)[0]);
  }

  lemma StoreInPlain(m: Memory, supply: seq<nat>, owner: Owner, pml4: nat, va: nat, bytes: seq<Byte>, s: Storing)
    requires TreeReady(m, supply, owner, pml4, 0, 256) && pml4 in m && va < LOWER_HALF_END
    requires va % PAGE_SIZE + |bytes| <= PAGE_SIZE && s == StoreIn(m, pml4, va, bytes)
    requires Translate(m, pml4, va).Some? && Plain(m, owner)
    ensures Plain(s.mem, owner)
  {
    hide Owned, Tree, ValidSupply, WalkTable, PathOf, StoreBytes, Locate;
    LocateLower(m, owner, pml4, va);
    MappedPage(m, owner, pml4, va);
  }

  lemma {:induction false} FillInPlain(m: Memory, supply: seq<nat>, owner: Owner, pml4: nat, data: seq<Byte>,
                                       ph: ProgramHeader, x: nat, s: Storing)
    requires TreeReady(m, supply, owner, pml4, 0, 256) && pml4 in m && ph.vaddr + ph.memSize <= LOWER_HALF_END
    requires ph.fileOffset + ph.fileSize <= |data| && ph.fileSize <= ph.memSize && x <= ph.memSize
    requires MappedFrom(m, pml4, ph, x) && s == FillIn(m, pml4, data, ph, x) && Plain(m, owner)
    ensures Plain(s.mem, owner)
    decreases ph.memSize - x
  {
    hide TreeReady, Confined, Translate, UserByte, Stored, MappedFrom, StoreIn, FillIn, NextChunk, SegmentBytes, Plain;
    if x == ph.memSize {
      FillNone(m, pml4, data, ph, x);
    } else {
      FillStep(m, pml4, data, ph, x);
      var va, n := ph.vaddr + x, NextChunk(ph, x);
      var bytes := SegmentBytes(data, ph, x, n);
      var a := StoreIn(m, pml4, va, bytes);
      MappedFirst(m, pml4, ph, x);
      ChunkKept(m, supply, owner, pml4, va, bytes, a);
      MappedStays(m, a.mem, pml4, ph, x, n, va, bytes);
      StoreInPlain(m, supply, owner, pml4, va, bytes, a);
      FillInPlain(a.mem, supply, owner, pml4, data, ph, x + n, s);
    }
  }

  lemma SegmentInPlain(m: Memory, supply: seq<nat>, owner: Owner, pml4: nat, data: seq<Byte>, ph: ProgramHeader,
                       r: Mapping)
    returns (owner': Owner)
    requires TreeReady(m, supply, owner, pml4, 0, 256) && pml4 in m && ph.memSize > 0
    requires ph.fileOffset + ph.fileSize <= |data| && ph.fileSize <= ph.memSize
    requires LastPage(ph.vaddr, ph.memSize) < LAST_LOWER_PAGE && r == SegmentIn(m, supply, pml4, data, ph) && r.ok
    requires Plain(m, owner)
    ensures TreeReady(r.mem, r.supply, owner', pml4, 0, 256) && Plain(r.mem, owner')
  {
    hide TreeReady, Confined, RegionMapped, Filled, TooFew, RegionNodes, RegionIn, FillIn, LastPage, Plain, MappedFrom,
         StoredPart, SegmentFlags;
    ReadySound(m, supply, owner, pml4);
    var f := SegmentFlags(ph);
    var a := RegionIn(m, supply, pml4, ph.vaddr, ph.memSize, f);
    owner' := RegionInPlain(m, supply, owner, pml4, ph.vaddr, ph.memSize, f, a);
    var o1 := RegionExtended(m, supply, owner, pml4, ph.vaddr, ph.memSize, f, a);
    PageAccess.RegionCovers(m, a.mem, pml4, ph, f);
    var s := FillIn(a.mem, pml4, data, ph, 0);
    FillStored(a.mem, a.supply, owner', pml4, data, ph, 0, s);
    FillInPlain(a.mem, a.supply, owner', pml4, data, ph, 0, s);
  }

  lemma HeaderInPlain(m: Memory, supply: seq<nat>, owner: Owner, pml4: nat, data: seq<Byte>, h: Header, i: nat,
                      l: Loading)
    returns (owner': Owner)
    requires TreeReady(m, supply, owner, pml4, 0, 256) && pml4 in m && 56 <= h.phentsize
    requires ParseHeader(data) == Ok(h) && LowerHalfImage(data) && i < h.phnum
    requires l == HeaderIn(m, supply, pml4, data, h, i) && l.outcome == Done && Plain(m, owner)
    ensures TreeReady(l.mem, l.supply, owner', pml4, 0, 256) && Plain(l.mem, owner')
  {
    hide TreeReady, ValidSupply, ParseHeader, ParseProgramHeader, LowerHalfImage, Plain, SegmentIn;
    ReadySound(m, supply, owner, pml4);
    owner' := owner;
    var r := ParseProgramHeader(data, h, i);
    if r.Ok? && r.value.Some? && r.value.value.memSize > 0 {
      LowerHalfSegment(data, h, i);
      var ph := r.value.value;
      owner' := SegmentInPlain(m, supply, owner, pml4, data, ph, SegmentIn(m, supply, pml4, data, ph));
    }
  }

  lemma {:induction false} HeadersInPlain(m: Memory, supply: seq<nat>, owner: Owner, pml4: nat, data: seq<Byte>,
                                          h: Header, n: nat, l: Loading)
    returns (owner': Owner)
    requires TreeReady(m, supply, owner, pml4, 0, 256) && pml4 in m && 56 <= h.phentsize
    requires ParseHeader(data) == Ok(h) && LowerHalfImage(data) && n <= h.phnum
    requires l == HeadersIn(m, supply, pml4, data, h, n) && l.outcome == Done && Plain(m, owner)
    ensures TreeReady(l.mem, l.supply, owner', pml4, 0, 256) && Plain(l.mem, owner')
  {
    hide TreeReady, ValidSupply, ParseHeader, LowerHalfImage, Plain, HeaderIn;
    ReadySound(m, supply, owner, pml4);
    owner' := owner;
    if n > 0 {
      var a := HeadersIn(m, supply, pml4, data, h, n - 1);
      owner' := HeadersInPlain(m, supply, owner, pml4, data, h, n - 1, a);
      owner' := HeaderInPlain(a.mem, a.supply, owner', pml4, data, h, n - 1, l);
    }
  }

  lemma LoadInPlain(m: Memory, supply: seq<nat>, data: seq<Byte>, cr3: nat, s: LoadStep)
    returns (owner': Owner)
    requires Sound(m, supply, cr3) && cr3 !in supply && LowerHalfImage(data) && s == LoadIn(m, supply, data, cr3)
    requires s.result.Loaded?
    ensures TreeReady(s.mem, s.supply, owner', s.result.pml4, 0, 256) && Plain(s.mem, owner')
  {
    hide ParseHeader, LowerHalfImage, RegionIn, HeadersIn, TreeReady, LAST_LOWER_PAGE;
    RootReady(m, supply, cr3);
    FirstInSupply(m, supply);
    var p, h := supply[0], ParseHeader(data).value;
    var m1 := m[p := ProcessRoot(m[cr3])];
    var o1: Owner := map[p := []];
    assert Plain(m1, o1);
    StackLower();
    var f := RegionFlags(true, false);
    var r := RegionIn(m1, supply[1..], p, USER_STACK_START, USER_STACK_SIZE, f);
    var o2 := RegionInPlain(m1, supply[1..], o1, p, USER_STACK_START, USER_STACK_SIZE, f, r);
    var l := HeadersIn(r.mem, r.supply, p, data, h, h.phnum);
    owner' := HeadersInPlain(r.mem, r.supply, o2, p, data, h, h.phnum, l);
  }

  // ---- Execution ----

  lemma {:induction false} PlainFetches(m: Memory, owner: Owner, pml4: nat, table: nat, path: seq<nat>)
    requires Owned(m, owner, pml4, 0, 256) && Plain(m, owner) && WalkFrom(owner, table, path, 0, 256)
    requires WalkTable(m, table, path).Some?
    ensures FetchesFrom(m, m[table][path[0]], path[1..]) <==> !Bit(WalkTable(m, table, path).value.hi, NO_EXECUTE_HI)
    decreases |path|
  {
    if |path| > 1 {
      BitOfZero(NO_EXECUTE_HI);
      var v := m[table][path[0]];
      UsedEntry(m, owner, pml4, 0, 256, table, path[0]);
      PlainFetches(m, owner, pml4, v.frame, path[1..]);
    }
  }

  /** After a load user code can execute a mapped page exactly when its last entry says so. */
  lemma LoadedFetch(m: Memory, supply: seq<nat>, data: seq<Byte>, cr3: nat, s: LoadStep, va: nat)
    requires Sound(m, supply, cr3) && cr3 !in supply && LowerHalfImage(data) && s == LoadIn(m, supply, data, cr3)
    requires s.result.Loaded? && va < LOWER_HALF_END && Translate(s.mem, s.result.pml4, va).Some?
    ensures Fetches(s.mem, s.result.pml4, va)
            <==> !Bit(Translate(s.mem, s.result.pml4, va).value.hi, NO_EXECUTE_HI)
  {
    hide Sound, LowerHalfImage, LoadIn, Descend, FetchesFrom, PathOf, Owned, Tree, ValidSupply;
    var owner := LoadInPlain(m, supply, data, cr3, s);
    LowerPath(va);
    RootWalk(s.mem, owner, s.result.pml4, 0, 256, PathOf(va));
    PlainFetches(s.mem, owner, s.result.pml4, s.result.pml4, PathOf(va));
  }

  // ---- What user code may do ----

  /** On the way to the page of `va` all four levels together let user code read it, write it and execute it as said. */
  predicate RightsAre(m: Memory, pml4: nat, va: nat, write: bool, execute: bool) {
    && Allows(m, pml4, va, PRESENT) && Allows(m, pml4, va, USER)
    && (Allows(m, pml4, va, WRITABLE) <==> write) && (Fetches(m, pml4, va) <==> execute)
  }

  lemma RightsOfLeaf(m: Memory, supply: seq<nat>, data: seq<Byte>, cr3: nat, s: LoadStep, va: nat)
    requires Sound(m, supply, cr3) && cr3 !in supply && LowerHalfImage(data) && s == LoadIn(m, supply, data, cr3)
    requires s.result.Loaded? && va < LOWER_HALF_END && Translate(s.mem, s.result.pml4, va).Some?
    ensures var w := Translate(s.mem, s.result.pml4, va).value;
            RightsAre(s.mem, s.result.pml4, va, Bit(w.lo, WRITABLE), !Bit(w.hi, NO_EXECUTE_HI))
  {
    hide Sound, LowerHalfImage, LoadIn, Translate, Allows, Fetches;
    PageAccess.LoadedAccess(m, supply, data, cr3, s, va);
    LoadedFetch(m, supply, data, cr3, s, va);
  }

  /** The first segment on a page off the stack: user code may write there exactly when bit 1 of its flags is set, and
      execute exactly when bit 0 is. */
  ghost predicate SegmentRights(m: Memory, pml4: nat, segs: seq<ProgramHeader>, va: nat) {
    forall k :: 0 <= k < |segs| && SharesPage(segs[k].vaddr, segs[k].memSize, va) && !OnStackPage(va)
      && (forall j :: 0 <= j < k ==> !SharesPage(segs[j].vaddr, segs[j].memSize, va))
      ==> RightsAre(m, pml4, va, segs[k].flags / 2 % 2 == 1, segs[k].flags % 2 == 1)
  }

  /** What the MMU makes of a loaded program: stack pages can be read, written and executed, pages of segments as the
      first segment on them says, and no other page of the lower half can be reached. */
  lemma LoadedRights(m: Memory, supply: seq<nat>, data: seq<Byte>, cr3: nat, s: LoadStep)
    returns (segs: seq<ProgramHeader>)
    requires Sound(m, supply, cr3) && cr3 !in supply && LowerHalfImage(data) && s == LoadIn(m, supply, data, cr3)
    requires s.result.Loaded?
    ensures GoodImage(data, segs)
    ensures forall va :: 0 <= va < LOWER_HALF_END ==> SegmentRights(s.mem, s.result.pml4, segs, va)
    ensures forall va :: 0 <= va < LOWER_HALF_END && OnStackPage(va) ==> RightsAre(s.mem, s.result.pml4, va, true, true)
    ensures forall va :: 0 <= va < LOWER_HALF_END && !OnStackPage(va)
              && (forall k :: 0 <= k < |segs| ==> !SharesPage(segs[k].vaddr, segs[k].memSize, va))
              ==> Translate(s.mem, s.result.pml4, va) == None
  {
    hide Sound, LowerHalfImage, LoadIn, Translate, RightsAre, SharesPage, OnStackPage, ParseHeader, UserByte;
    segs := LoadedView(m, supply, data, cr3, s);
    forall va | 0 <= va < LOWER_HALF_END
      ensures SegmentRights(s.mem, s.result.pml4, segs, va)
      ensures OnStackPage(va) ==> RightsAre(s.mem, s.result.pml4, va, true, true)
      ensures !OnStackPage(va) && (forall k :: 0 <= k < |segs| ==> !SharesPage(segs[k].vaddr, segs[k].memSize, va))
              ==> Translate(s.mem, s.result.pml4, va) == None
    {
      assert UserView(s.mem, s.result.pml4, data, segs, va);
      var t := Translate(s.mem, s.result.pml4, va);
      if t.Some? {
        RightsOfLeaf(m, supply, data, cr3, s, va);
        if OnStackPage(va) {
          StackBits(t.value);
        }
      }
    }
  }

  lemma StackBits(w: Word)
    requires w.lo == 7 && w.hi == 0
    ensures Bit(w.lo, WRITABLE) && !Bit(w.hi, NO_EXECUTE_HI)
  {
    BitOfZero(NO_EXECUTE_HI);
  }
}
