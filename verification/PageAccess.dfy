/** What the MMU lets user code do. It grants an access only when every entry on the way to a page allows it, not the
    last one alone (`kernel/src/process.rs`, `kernel/src/memory/paging.rs`). */
module PageAccess {
  import opened Words
  import opened PageTables
  import opened CloneTables
  import opened AddressSpaces
  import opened UserMemory
  import opened Bytes
  import opened KernelElf
  import opened LoadModel
  import opened ProcessLoading

  // ---- Entries only gain access flags ----

  /** The entry was unused, or names the same frame as before with no access flag less. */
  ghost predicate Gains(w: Word, v: Word) {
    Unused(w) || (!Unused(v) && v.frame == w.frame && HasLow(v.lo, w.lo) && (NamesTable(w) ==> NamesTable(v)))
  }

  /** All frames outside `taken` hold entries that only gained. */
  ghost predicate AllGain(m: Memory, e: Memory, taken: set<nat>) {
    forall f :: f in m && f !in taken ==> f in e && forall i :: 0 <= i < 512 ==> Gains(m[f][i], e[f][i])
  }

  lemma GainsTwice(m: Memory, e: Memory, g: Memory, taken: set<nat>)
    requires AllGain(m, e, taken) && AllGain(e, g, taken)
    ensures AllGain(m, g, taken)
  {
    forall f, i | f in m && f !in taken && 0 <= i < 512 ensures f in g && Gains(m[f][i], g[f][i]) {
      assert Gains(m[f][i], e[f][i]) && Gains(e[f][i], g[f][i]);
    }
  }

  lemma GainsMore(m: Memory, e: Memory, taken: set<nat>, more: set<nat>)
    requires AllGain(m, e, taken) && taken <= more
    ensures AllGain(m, e, more)
  {}

  lemma EntryGains(m: Memory, table: nat, i: nat, w: Word, taken: set<nat>)
    requires table in m && i < 512 && Gains(m[table][i], w)
    ensures AllGain(m, WriteEntry(m, table, i, w), taken)
  {}

  lemma LinkGains(m: Memory, table: nat, i: nat, w: Word, f: nat, taken: set<nat>)
    requires table in m && i < 512 && Unused(m[table][i]) && f in taken
    ensures AllGain(m, WriteEntry(m, table, i, w)[f := EmptyTable()], taken)
  {
    EntryGains(m, table, i, w, taken);
    var e := WriteEntry(m, table, i, w);
    forall g, j | g in m && g !in taken && 0 <= j < 512 ensures Gains(m[g][j], e[f := EmptyTable()][g][j]) {
      assert Gains(m[g][j], e[g][j]);
    }
  }

  lemma NextTableGains(m: Memory, supply: seq<nat>, table: nat, i: nat, flags: nat, s: NextStep)
    requires table in m && i < 512 && flags < TWO_12 && Bit(flags, PRESENT) && ValidSupply(m, supply)
    requires s == NextTable(m, supply, table, i, flags)
    ensures AllGain(m, s.mem, Range(supply))
  {
    hide ValidSupply, AllGain, OrLow, ParentFlags, WriteEntry, HasLow;
    var entry := m[table][i];
    SameGains(m, Range(supply));
    if Unused(entry) {
      if supply != [] {
        FirstInSupply(m, supply);
        LinkGains(m, table, i, Word(ParentFlags(flags), supply[0], 0), supply[0], Range(supply));
      }
    } else {
      FlagsGain(m, table, i, flags, Range(supply));
    }
  }

  lemma FlagsGain(m: Memory, table: nat, i: nat, flags: nat, taken: set<nat>)
    requires table in m && i < 512 && !Unused(m[table][i])
    ensures var w := m[table][i]; AllGain(m, WriteEntry(m, table, i, Word(OrLow(w.lo, flags), w.frame, w.hi)), taken)
  {
    hide AllGain, OrLow, WriteEntry, Gains, Unused;
    var w := m[table][i];
    var v := Word(OrLow(w.lo, flags), w.frame, w.hi);
    KeepsUsed(w, v);
    EntryGains(m, table, i, v, taken);
  }

  lemma SameGains(m: Memory, taken: set<nat>)
    ensures AllGain(m, m, taken)
  {}

  lemma KeepsUsed(w: Word, v: Word)
    requires !Unused(w) && v.frame == w.frame && v.hi == w.hi
    requires forall k: nat :: Bit(w.lo, k) ==> Bit(v.lo, k)
    requires forall k: nat :: k > USER ==> Bit(v.lo, k) == Bit(w.lo, k)
    ensures Gains(w, v)
  {
    if Unused(v) {
      forall k: nat ensures !Bit(w.lo, k) {
        BitOfZero(k);
      }
      LowIsZero(w.lo);
    }
  }

  /** A number with no bit set is zero. */
  lemma {:induction false} LowIsZero(n: nat)
    requires forall k: nat :: !Bit(n, k)
    ensures n == 0
    decreases n
  {
    if n > 0 {
      assert !Bit(n, 0);
      forall k: nat ensures !Bit(n / 2, k) {
        assert !Bit(n, k + 1);
      }
      LowIsZero(n / 2);
    }
  }

  lemma SupplyRange(supply: seq<nat>, supply': seq<nat>)
    requires forall f :: f in supply' ==> f in supply
    ensures Range(supply') <= Range(supply)
  {}

  lemma ReachTableGains(m: Memory, supply: seq<nat>, pml4: nat, path: seq<nat>, flags: nat, s: NextStep)
    requires pml4 in m && |path| == 4 && ValidPath(path) && flags < TWO_12 && Bit(flags, PRESENT)
    requires ValidSupply(m, supply) && s == ReachTable(m, supply, pml4, path, flags)
    ensures AllGain(m, s.mem, Range(supply)) && forall f :: f in s.supply ==> f in supply
  {
    hide ValidSupply, AllGain, NextTable, Range;
    var a := NextTable(m, supply, pml4, path[0], flags);
    NextTableGains(m, supply, pml4, path[0], flags, a);
    SupplyRange(supply, a.supply);
    if a.next.Table? {
      var b := NextTable(a.mem, a.supply, a.next.frame, path[1], flags);
      NextTableGains(a.mem, a.supply, a.next.frame, path[1], flags, b);
      GainsMore(a.mem, b.mem, Range(a.supply), Range(supply));
      GainsTwice(m, a.mem, b.mem, Range(supply));
      SupplyRange(supply, b.supply);
      if b.next.Table? {
        var c := NextTable(b.mem, b.supply, b.next.frame, path[2], flags);
        NextTableGains(b.mem, b.supply, b.next.frame, path[2], flags, c);
        GainsMore(b.mem, c.mem, Range(b.supply), Range(supply));
        GainsTwice(m, b.mem, c.mem, Range(supply));
      }
    }
  }

  lemma MapPathGains(m: Memory, supply: seq<nat>, pml4: nat, path: seq<nat>, w: Word, s: MapStep)
    requires pml4 in m && |path| == 4 && ValidPath(path) && Bit(w.lo, PRESENT) && ValidSupply(m, supply)
    requires s == MapPath(m, supply, pml4, path, w.frame, w.lo, w.hi)
    ensures AllGain(m, s.mem, Range(supply))
  {
    hide ValidSupply, AllGain, ReachTable, Range;
    var c := ReachTable(m, supply, pml4, path, w.lo);
    ReachTableGains(m, supply, pml4, path, w.lo, c);
    if s.result == Mapped {
      EntryGains(c.mem, c.next.frame, path[3], w, Range(supply));
      GainsTwice(m, c.mem, s.mem, Range(supply));
    }
  }

  // ---- What is granted stays granted ----

  /** The tables of the tree hold entries that only gained. */
  ghost predicate TablesGain(m: Memory, e: Memory, owner: Owner) {
    forall f :: f in owner && |owner[f]| <= 3 && f in m ==>
      f in e && forall i :: 0 <= i < 512 ==> Gains(m[f][i], e[f][i])
  }

  lemma {:induction false} GrantedStays(m: Memory, e: Memory, owner: Owner, pml4: nat, table: nat, path: seq<nat>,
                                        flags: nat)
    requires Owned(m, owner, pml4, 0, 256) && TablesGain(m, e, owner) && table in owner
    requires |path| > 0 && |owner[table]| + |path| == 4 && ValidPath(path) && Managed(owner[table], path[0], 0, 256)
    requires Granted(m, table, path, flags)
    ensures Granted(e, table, path, flags)
    decreases |path|
  {
    if |path| > 1 {
      var w := m[table][path[0]];
      assert Gains(w, e[table][path[0]]);
      UsedEntry(m, owner, pml4, 0, 256, table, path[0]);
      GrantedStays(m, e, owner, pml4, w.frame, path[1..], flags);
    }
  }

  // ---- Loading ----

  /** On the way to every mapped page of the lower half, every entry has the access flags of the last one. */
  ghost predicate AllGranted(m: Memory, pml4: nat) {
    forall va :: 0 <= va < LOWER_HALF_END ==> PageGranted(m, pml4, va)
  }

  ghost predicate PageGranted(m: Memory, pml4: nat, va: nat) {
    var t := Translate(m, pml4, va); t.Some? ==> Granted(m, pml4, PathOf(va), t.value.lo)
  }

  /** A page that translates as before, through tables that only gained. */
  lemma PageStays(m: Memory, e: Memory, owner: Owner, pml4: nat, va: nat)
    requires Owned(m, owner, pml4, 0, 256) && TablesGain(m, e, owner) && va < LOWER_HALF_END
    requires PageGranted(m, pml4, va) && Translate(e, pml4, va) == Translate(m, pml4, va)
    ensures PageGranted(e, pml4, va)
  {
    hide WalkTable, PathOf, TablesGain, Granted;
    LowerPath(va);
    var t := Translate(m, pml4, va);
    if t.Some? {
      GrantedStays(m, e, owner, pml4, pml4, PathOf(va), t.value.lo);
    }
  }

  lemma GainsTables(m: Memory, e: Memory, supply: seq<nat>, owner: Owner, pml4: nat)
    requires TreeReady(m, supply, owner, pml4, 0, 256) && AllGain(m, e, Range(supply))
    ensures TablesGain(m, e, owner)
  {
    hide Owned, Tree, ValidSupply;
  }

  lemma PageInGranted(m: Memory, supply: seq<nat>, owner: Owner, pml4: nat, page: nat, f: Flags, r: Mapping)
    requires TreeReady(m, supply, owner, pml4, 0, 256) && pml4 in m && page * PAGE_SIZE < LOWER_HALF_END
    requires r == PageIn(m, supply, pml4, page, f) && r.ok && AllGranted(m, pml4)
    ensures AllGranted(r.mem, pml4)
  {
    hide Owned, Grown, ValidSupply, WalkTable, PathOf, Tree, Prefixes, Locate, MapPath, Granted, Linked, AllGranted,
         AllGain, TablesGain;
    var path := PathOf(page * PAGE_SIZE);
    LowerPath(page * PAGE_SIZE);
    if Locate(m, pml4, path) == Absent {
      LocateLower(m, owner, pml4, page * PAGE_SIZE);
      TakeFrame(m, supply, owner, pml4, 0, 256);
      var w := Word(f.lo, supply[0], f.hi);
      var s := MapPath(m, supply[1..], pml4, path, supply[0], f.lo, f.hi);
      var owner' := MapPathGrown(m, supply[1..], owner, pml4, 0, 256, path, w, s);
      MapPathGains(m, supply[1..], pml4, path, w, s);
      GainsTables(m, s.mem, supply[1..], owner, pml4);
      NewPageGranted(m, supply[1..], owner, s, owner', pml4, page, w);
    }
  }

  lemma NewPageGranted(m: Memory, supply: seq<nat>, owner: Owner, s: MapStep, owner': Owner, pml4: nat, page: nat,
                       w: Word)
    requires Owned(m, owner, pml4, 0, 256) && page * PAGE_SIZE < LOWER_HALF_END && s.result == Mapped
    requires PathMapped(m, supply, owner, s, owner', pml4, 0, 256, PathOf(page * PAGE_SIZE), w)
    requires AllGranted(m, pml4) && TablesGain(m, s.mem, owner)
    ensures AllGranted(s.mem, pml4)
  {
    hide Owned, WalkTable, PathOf, Granted, Linked, TablesGain, TreeReady;
    var path := PathOf(page * PAGE_SIZE);
    forall va | 0 <= va < LOWER_HALF_END ensures PageGranted(s.mem, pml4, va) {
      if PathOf(va) != path {
        LowerPath(va);
        assert PageGranted(m, pml4, va);
        PageStays(m, s.mem, owner, pml4, va);
      }
    }
  }

  lemma {:induction false} PagesInGranted(m: Memory, supply: seq<nat>, owner: Owner, pml4: nat, page: nat, last: nat,
                                          f: Flags, r: Mapping)
    requires TreeReady(m, supply, owner, pml4, 0, 256) && pml4 in m && last < LAST_LOWER_PAGE
    requires r == PagesIn(m, supply, pml4, page, last, f) && r.ok && AllGranted(m, pml4)
    ensures AllGranted(r.mem, pml4)
    decreases last + 1 - page
  {
    hide TreeReady, AllGranted, PageIn, Confined, RegionMapped, Filled, TooFew, PathOf, Prefixes;
    if page <= last {
      ReadySound(m, supply, owner, pml4);
      var a := PageIn(m, supply, pml4, page, f);
      var owner' := PageExtended(m, supply, owner, pml4, page, f, a);
      PageInGranted(m, supply, owner, pml4, page, f, a);
      PagesInGranted(a.mem, a.supply, owner', pml4, page + 1, last, f, r);
    }
  }

  lemma RegionInGranted(m: Memory, supply: seq<nat>, owner: Owner, pml4: nat, start: nat, size: nat, f: Flags,
                        r: Mapping)
    requires TreeReady(m, supply, owner, pml4, 0, 256) && pml4 in m && size > 0
    requires LastPage(start, size) < LAST_LOWER_PAGE && r == RegionIn(m, supply, pml4, start, size, f) && r.ok
    requires AllGranted(m, pml4)
    ensures AllGranted(r.mem, pml4)
  {
    hide TreeReady, AllGranted, PagesIn, Confined, RegionMapped, Filled, TooFew, PathOf, RegionNodes, UserEntry,
         WriteEntry;
    ReadySound(m, supply, owner, pml4);
    var first, last := start / PAGE_SIZE, LastPage(start, size);
    var a := PagesIn(m, supply, pml4, first, last, f);
    var owner' := PagesExtended(m, supply, owner, pml4, first, last, f, a);
    PagesInGranted(m, supply, owner, pml4, first, last, f, a);
    RegionHas(m, a.mem, pml4, first, last, f, start);
    GrantExtended(a.mem, a.supply, owner', pml4, start, f);
    UserEntryGranted(a.mem, a.supply, owner', pml4, start, f);
  }

  lemma UserEntryGranted(m: Memory, supply: seq<nat>, owner: Owner, pml4: nat, start: nat, f: Flags)
    requires TreeReady(m, supply, owner, pml4, 0, 256) && pml4 in m && start < LOWER_HALF_END
    requires Translate(m, pml4, start).Some? && AllGranted(m, pml4)
    ensures var i := PathOf(start)[0]; AllGranted(WriteEntry(m, pml4, i, UserEntry(m[pml4][i])), pml4)
  {
    hide Owned, Tree, ValidSupply, PathOf, WalkTable, UserEntry, WriteEntry, AllGain, TablesGain, PageGranted, Granted;
    var i := PathOf(start)[0];
    var w := m[pml4][i];
    var e := WriteEntry(m, pml4, i, UserEntry(w));
    MappedRoot(m, owner, pml4, start);
    BitOfZero(PRESENT);
    KeepsUsed(w, UserEntry(w));
    EntryGains(m, pml4, i, UserEntry(w), Range(supply));
    GainsTables(m, e, supply, owner, pml4);
    GrantExtended(m, supply, owner, pml4, start, f);
    forall va | 0 <= va < LOWER_HALF_END ensures PageGranted(e, pml4, va) {
      assert PageGranted(m, pml4, va);
      SameTranslation(m, e, pml4, f, va);
      PageStays(m, e, owner, pml4, va);
    }
  }

  lemma SameTranslation(m: Memory, e: Memory, pml4: nat, f: Flags, va: nat)
    requires RegionMapped(m, e, pml4, 1, 0, f) && va < LOWER_HALF_END
    ensures Translate(e, pml4, va) == Translate(m, pml4, va)
  {
    hide Translate, UserByte;
  }

  /** Storing bytes on a page writes no table. */
  lemma StoreInGranted(m: Memory, supply: seq<nat>, owner: Owner, pml4: nat, va: nat, bytes: seq<Byte>, s: Storing)
    requires TreeReady(m, supply, owner, pml4, 0, 256) && pml4 in m && va < LOWER_HALF_END
    requires va % PAGE_SIZE + |bytes| <= PAGE_SIZE && s == StoreIn(m, pml4, va, bytes)
    requires Translate(m, pml4, va).Some? && AllGranted(m, pml4)
    ensures AllGranted(s.mem, pml4)
  {
    hide Owned, Tree, ValidSupply, WalkTable, PathOf, StoreBytes, Locate, Confined, PageGranted, UserByte;
    LocateLower(m, owner, pml4, va);
    MappedPage(m, owner, pml4, va);
    ChunkKept(m, supply, owner, pml4, va, bytes, s);
    assert TablesGain(m, s.mem, owner) by {
      SameGains(m, {});
    }
    forall x | 0 <= x < LOWER_HALF_END ensures PageGranted(s.mem, pml4, x) {
      assert PageGranted(m, pml4, x);
      PageStays(m, s.mem, owner, pml4, x);
    }
  }

  lemma {:induction false} FillInGranted(m: Memory, supply: seq<nat>, owner: Owner, pml4: nat, data: seq<Byte>,
                                         ph: ProgramHeader, x: nat, s: Storing)
    requires TreeReady(m, supply, owner, pml4, 0, 256) && pml4 in m && ph.vaddr + ph.memSize <= LOWER_HALF_END
    requires ph.fileOffset + ph.fileSize <= |data| && ph.fileSize <= ph.memSize && x <= ph.memSize
    requires MappedFrom(m, pml4, ph, x) && s == FillIn(m, pml4, data, ph, x) && AllGranted(m, pml4)
    ensures AllGranted(s.mem, pml4)
    decreases ph.memSize - x
  {
    hide TreeReady, Confined, Translate, UserByte, Stored, MappedFrom, StoreIn, FillIn, NextChunk, SegmentBytes,
         AllGranted;
    if x == ph.memSize {
      FillNone(m, pml4, data, ph, x);
    } else {
      FillStep(m, pml4, data, ph, x);
      var va, n := ph.vaddr + x, NextChunk(ph, x);
      var bytes := SegmentBytes(data, ph, x, n);
      var a := StoreIn(m, pml4, va, bytes);
      MappedFirst(m, pml4, ph, x);
      ChunkKept(m, supply, owner, pml4, va, bytes, a);
      MappedStays(m, a.mem, pml4, ph, x, n, va, bytes);
      StoreInGranted(m, supply, owner, pml4, va, bytes, a);
      FillInGranted(a.mem, supply, owner, pml4, data, ph, x + n, s);
    }
  }

  /** The pages of a segment that was mapped. */
  lemma RegionCovers(m: Memory, e: Memory, pml4: nat, ph: ProgramHeader, f: Flags)
    requires ph.memSize > 0 && LastPage(ph.vaddr, ph.memSize) < LAST_LOWER_PAGE
    requires RegionMapped(m, e, pml4, ph.vaddr / PAGE_SIZE, LastPage(ph.vaddr, ph.memSize), f)
    ensures MappedFrom(e, pml4, ph, 0) && ph.vaddr + ph.memSize <= LOWER_HALF_END
  {
    hide Translate;
    forall va | ph.vaddr + 0 <= va < ph.vaddr + ph.memSize ensures Translate(e, pml4, va).Some? {
      RegionHas(m, e, pml4, ph.vaddr / PAGE_SIZE, LastPage(ph.vaddr, ph.memSize), f, va);
    }
  }

  lemma SegmentInGranted(m: Memory, supply: seq<nat>, owner: Owner, pml4: nat, data: seq<Byte>, ph: ProgramHeader,
                         r: Mapping)
    returns (owner': Owner)
    requires TreeReady(m, supply, owner, pml4, 0, 256) && pml4 in m && ph.memSize > 0
    requires ph.fileOffset + ph.fileSize <= |data| && ph.fileSize <= ph.memSize
    requires LastPage(ph.vaddr, ph.memSize) < LAST_LOWER_PAGE && r == SegmentIn(m, supply, pml4, data, ph) && r.ok
    requires AllGranted(m, pml4)
    ensures TreeReady(r.mem, r.supply, owner', pml4, 0, 256) && AllGranted(r.mem, pml4)
  {
    hide TreeReady, Confined, RegionMapped, Filled, TooFew, RegionNodes, RegionIn, FillIn, LastPage, AllGranted,
         MappedFrom, StoredPart, SegmentFlags;
    ReadySound(m, supply, owner, pml4);
    var f := SegmentFlags(ph);
    var a := RegionIn(m, supply, pml4, ph.vaddr, ph.memSize, f);
    owner' := RegionExtended(m, supply, owner, pml4, ph.vaddr, ph.memSize, f, a);
    RegionInGranted(m, supply, owner, pml4, ph.vaddr, ph.memSize, f, a);
    RegionCovers(m, a.mem, pml4, ph, f);
    var s := FillIn(a.mem, pml4, data, ph, 0);
    FillStored(a.mem, a.supply, owner', pml4, data, ph, 0, s);
    FillInGranted(a.mem, a.supply, owner', pml4, data, ph, 0, s);
  }

  lemma {:induction false} HeadersInGranted(m: Memory, supply: seq<nat>, owner: Owner, pml4: nat, data: seq<Byte>,
                                            h: Header, n: nat, l: Loading)
    returns (owner': Owner)
    requires TreeReady(m, supply, owner, pml4, 0, 256) && pml4 in m && 56 <= h.phentsize
    requires ParseHeader(data) == Ok(h) && LowerHalfImage(data) && n <= h.phnum
    requires l == HeadersIn(m, supply, pml4, data, h, n) && l.outcome == Done && AllGranted(m, pml4)
    ensures TreeReady(l.mem, l.supply, owner', pml4, 0, 256) && AllGranted(l.mem, pml4)
  {
    hide TreeReady, ValidSupply, ParseHeader, LowerHalfImage, AllGranted, HeaderIn;
    ReadySound(m, supply, owner, pml4);
    owner' := owner;
    if n > 0 {
      var a := HeadersIn(m, supply, pml4, data, h, n - 1);
      owner' := HeadersInGranted(m, supply, owner, pml4, data, h, n - 1, a);
      owner' := HeaderInGranted(a.mem, a.supply, owner', pml4, data, h, n - 1, l);
    }
  }

  lemma HeaderInGranted(m: Memory, supply: seq<nat>, owner: Owner, pml4: nat, data: seq<Byte>, h: Header, i: nat,
                        l: Loading)
    returns (owner': Owner)
    requires TreeReady(m, supply, owner, pml4, 0, 256) && pml4 in m && 56 <= h.phentsize
    requires ParseHeader(data) == Ok(h) && LowerHalfImage(data) && i < h.phnum
    requires l == HeaderIn(m, supply, pml4, data, h, i) && l.outcome == Done && AllGranted(m, pml4)
    ensures TreeReady(l.mem, l.supply, owner', pml4, 0, 256) && AllGranted(l.mem, pml4)
  {
    hide TreeReady, ValidSupply, ParseHeader, ParseProgramHeader, LowerHalfImage, AllGranted, SegmentIn;
    ReadySound(m, supply, owner, pml4);
    owner' := owner;
    var r := ParseProgramHeader(data, h, i);
    if r.Ok? && r.value.Some? && r.value.value.memSize > 0 {
      LowerHalfSegment(data, h, i);
      var ph := r.value.value;
      owner' := SegmentInGranted(m, supply, owner, pml4, data, ph, SegmentIn(m, supply, pml4, data, ph));
    }
  }

  /** A new PML4 has no page in the lower half. */
  lemma RootGranted(m: Memory, pml4: nat)
    requires pml4 in m && forall i :: 0 <= i < 256 ==> m[pml4][i] == ZERO
    ensures AllGranted(m, pml4)
  {
    hide Granted;
    forall va | 0 <= va < LOWER_HALF_END ensures PageGranted(m, pml4, va) {
      LowerPath(va);
    }
  }

  lemma LoadInGranted(m: Memory, supply: seq<nat>, data: seq<Byte>, cr3: nat, s: LoadStep)
    requires Sound(m, supply, cr3) && cr3 !in supply && LowerHalfImage(data) && s == LoadIn(m, supply, data, cr3)
    requires s.result.Loaded?
    ensures AllGranted(s.mem, s.result.pml4)
  {
    hide ParseHeader, LowerHalfImage, RegionIn, HeadersIn, AllGranted, Confined, RegionMapped, Filled, TooFew,
         RegionNodes, TreeReady, LAST_LOWER_PAGE;
    RootReady(m, supply, cr3);
    FirstInSupply(m, supply);
    var p, h := supply[0], ParseHeader(data).value;
    var m1 := m[p := ProcessRoot(m[cr3])];
    var o1: Owner := map[p := []];
    RootGranted(m1, p);
    StackLower();
    var f := RegionFlags(true, false);
    var r := RegionIn(m1, supply[1..], p, USER_STACK_START, USER_STACK_SIZE, f);
    var o2 := RegionExtended(m1, supply[1..], o1, p, USER_STACK_START, USER_STACK_SIZE, f, r);
    RegionInGranted(m1, supply[1..], o1, p, USER_STACK_START, USER_STACK_SIZE, f, r);
    var l := HeadersIn(r.mem, r.supply, p, data, h, h.phnum);
    var o3 := HeadersInGranted(r.mem, r.supply, o2, p, data, h, h.phnum, l);
  }

  // ---- Access ----

  lemma {:induction false} GrantedAllows(m: Memory, table: nat, path: seq<nat>, flags: nat, bit: nat)
    requires |path| > 0 && ValidPath(path) && Granted(m, table, path, flags) && bit <= USER && Bit(flags, bit)
    requires WalkTable(m, table, path).Some? && Bit(WalkTable(m, table, path).value.lo, bit)
    ensures AllowsFrom(m, m[table][path[0]], path[1..], bit)
    decreases |path|
  {
    if |path| > 1 {
      GrantedAllows(m, m[table][path[0]].frame, path[1..], flags, bit);
    }
  }

  lemma {:induction false} AllowsLast(m: Memory, w: Word, path: seq<nat>, bit: nat)
    requires ValidPath(path) && AllowsFrom(m, w, path, bit) && Descend(m, w, path).Some?
    ensures Bit(Descend(m, w, path).value.lo, bit)
    decreases |path|
  {
    if |path| > 0 {
      AllowsLast(m, m[w.frame][path[0]], path[1..], bit);
    }
  }

  /** After a load user code can reach every mapped page of the lower half, and can write it exactly when its last entry
      says so: no table above takes away what the page was given, whatever other pages share it. */
  lemma LoadedAccess(m: Memory, supply: seq<nat>, data: seq<Byte>, cr3: nat, s: LoadStep, va: nat)
    requires Sound(m, supply, cr3) && cr3 !in supply && LowerHalfImage(data) && s == LoadIn(m, supply, data, cr3)
    requires s.result.Loaded? && va < LOWER_HALF_END && Translate(s.mem, s.result.pml4, va).Some?
    ensures Allows(s.mem, s.result.pml4, va, PRESENT) && Allows(s.mem, s.result.pml4, va, USER)
    ensures Allows(s.mem, s.result.pml4, va, WRITABLE) <==> Bit(Translate(s.mem, s.result.pml4, va).value.lo, WRITABLE)
  {
    hide Sound, LowerHalfImage, LoadIn, Granted, Descend, AllowsFrom, PathOf, HoldsImage, ParseHeader, SpaceMade,
         PagesTaken, ImageNodes, Spent, PageFlags;
    LoadInGranted(m, supply, data, cr3, s);
    var p := s.result.pml4;
    assert PageGranted(s.mem, p, va);
    var segs := LowerHalfLoaded(m, supply, data, cr3, s);
    var w, path := Translate(s.mem, p, va).value, PathOf(va);
    OpenPage(s.mem, p, segs, data, va);
    GrantedAllows(s.mem, p, path, w.lo, PRESENT);
    GrantedAllows(s.mem, p, path, w.lo, USER);
    if Bit(w.lo, WRITABLE) {
      GrantedAllows(s.mem, p, path, w.lo, WRITABLE);
    } else if Allows(s.mem, p, va, WRITABLE) {
      AllowsLast(s.mem, s.mem[p][path[0]], path[1..], WRITABLE);
    }
  }

  /** Every page of an image is present and open to user code. */
  lemma OpenPage(m: Memory, pml4: nat, segs: seq<ProgramHeader>, data: seq<Byte>, va: nat)
    requires forall k :: 0 <= k < |segs| ==> Loadable(data, segs[k])
    requires HoldsImage(m, pml4, segs, data) && va < LOWER_HALF_END && Translate(m, pml4, va).Some?
    ensures Bit(Translate(m, pml4, va).value.lo, PRESENT) && Bit(Translate(m, pml4, va).value.lo, USER)
  {
    hide Translate, UserByte, ImageByte;
    FlagsOpen(segs, va / PAGE_SIZE);
  }

  lemma {:induction false} FlagsOpen(segs: seq<ProgramHeader>, page: nat)
    ensures PageFlags(segs, page).Some? ==> Bit(PageFlags(segs, page).value.lo, USER)
  {
    if !StackPage(page) && segs != [] {
      FlagsOpen(segs[..|segs| - 1], page);
    }
  }
}
