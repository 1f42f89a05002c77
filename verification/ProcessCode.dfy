/** The code that builds a process from an ELF image (`kernel/src/process.rs`), for every image and every state of the
    page tables. */
module ProcessCode {
  import opened Words
  import opened PageTables
  import opened CloneTables
  import opened AddressSpaces
  import opened UserMemory
  import opened Bytes
  import opened KernelElf
  import opened LoadModel

  /** One page of `map_user_region`. */
  method MapPage(space: OffsetPageTable, page: nat, f: Flags) returns (ok: bool)
    requires space.Sound()
    modifies space`owner, space.phys
    ensures Mapping(space.phys.mem, space.phys.supply, ok)
            == PageIn(old(space.phys.mem), old(space.phys.supply), space.pml4, page, f)
    ensures space.Sound()
  {
    hide ValidSupply, MapPath, Locate, PathOf;
    var path := PathOf(page * PAGE_SIZE);
    var at := Locate(space.phys.mem, space.pml4, path);
    if at != Absent {
      return at.At?;
    }
    if space.phys.supply == [] {
      return false;
    }
    TakeFirst(space.phys.mem, space.phys.supply);
    var frame := space.phys.supply[0];
    space.phys.supply := space.phys.supply[1..];
    var r := space.MapTo(path, frame, f.lo, f.hi);
    return r == Mapped;
  }

  lemma TakeFirst(m: Memory, supply: seq<nat>)
    requires ValidSupply(m, supply) && supply != []
    ensures supply[0] < TWO_40 && ValidSupply(m, supply[1..])
  {}

  /** `map_user_region`. `ok` is false when the kernel panics. */
  method MapUserRegion(space: OffsetPageTable, start: nat, size: nat, f: Flags) returns (ok: bool)
    requires space.Sound() && size > 0
    modifies space`owner, space.phys
    ensures Mapping(space.phys.mem, space.phys.supply, ok)
            == RegionIn(old(space.phys.mem), old(space.phys.supply), space.pml4, start, size, f)
    ensures space.Sound()
  {
    hide ValidSupply, PageIn, PathOf;
    if !Canonical(start) || !Canonical(start + size) {
      return false;
    }
    var page, last := start / PAGE_SIZE, LastPage(start, size);
    ghost var m, supply := space.phys.mem, space.phys.supply;
    while page <= last
      invariant space.Sound() && page <= last + 1
      invariant PagesIn(m, supply, space.pml4, start / PAGE_SIZE, last, f)
                == PagesIn(space.phys.mem, space.phys.supply, space.pml4, page, last, f)
    {
      if page == LAST_LOWER_PAGE {
        return false;
      }
      ok := MapPage(space, page, f);
      if !ok {
        return;
      }
      page := page + 1;
    }
    var i := PathOf(start)[0];
    var entry := space.phys.mem[space.pml4][i];
    space.phys.mem := WriteEntry(space.phys.mem, space.pml4, i, UserEntry(entry));
    ok := true;
  }

  /** One chunk of the copy and zero-fill loops. `ok` is false when the page is not mapped. */
  method StoreChunk(space: OffsetPageTable, va: nat, bytes: seq<Byte>) returns (ok: bool)
    requires space.Sound() && va % PAGE_SIZE + |bytes| <= PAGE_SIZE
    modifies space.phys
    ensures Storing(space.phys.mem, ok) == StoreIn(old(space.phys.mem), space.pml4, va, bytes)
    ensures space.Sound() && space.phys.supply == old(space.phys.supply)
  {
    hide Locate, PathOf, StoreBytes;
    var at := Locate(space.phys.mem, space.pml4, PathOf(va));
    if !at.At? || at.frame !in space.phys.mem {
      return false;
    }
    var t := StoreBytes(space.phys.mem[at.frame], va % PAGE_SIZE, bytes);
    space.phys.mem := space.phys.mem[at.frame := t];
    return true;
  }

  /** The copy loop and the zero-fill loop for one segment. */
  method FillSegment(space: OffsetPageTable, data: seq<Byte>, ph: ProgramHeader) returns (ok: bool)
    requires space.Sound() && ph.fileOffset + ph.fileSize <= |data| && ph.fileSize <= ph.memSize
    modifies space.phys
    ensures Storing(space.phys.mem, ok) == FillIn(old(space.phys.mem), space.pml4, data, ph, 0)
    ensures space.Sound() && space.phys.supply == old(space.phys.supply)
  {
    hide ValidSupply, StoreIn, FillIn, SegmentBytes;
    ghost var m, supply := space.phys.mem, space.phys.supply;
    var offset := 0;
    while offset < ph.fileSize
      invariant offset <= ph.fileSize && space.Sound() && space.phys.supply == supply
      invariant FillIn(m, space.pml4, data, ph, 0) == FillIn(space.phys.mem, space.pml4, data, ph, offset)
    {
      FillStep(space.phys.mem, space.pml4, data, ph, offset);
      var va := ph.vaddr + offset;
      var n := ChunkSize(ph.fileSize - offset, va);
      var bytes := data[ph.fileOffset + offset..ph.fileOffset + offset + n];
      FileChunk(data, ph, offset, n);
      ok := StoreChunk(space, va, bytes);
      if !ok {
        return;
      }
      offset := offset + n;
    }
    while offset < ph.memSize
      invariant ph.fileSize <= offset <= ph.memSize && space.Sound() && space.phys.supply == supply
      invariant FillIn(m, space.pml4, data, ph, 0) == FillIn(space.phys.mem, space.pml4, data, ph, offset)
    {
      FillStep(space.phys.mem, space.pml4, data, ph, offset);
      var va := ph.vaddr + offset;
      var n := ChunkSize(ph.memSize - offset, va);
      ZeroChunk(data, ph, offset, n);
      ok := StoreChunk(space, va, seq(n, _ => 0));
      if !ok {
        return;
      }
      offset := offset + n;
    }
    FillNone(space.phys.mem, space.pml4, data, ph, offset);
    ok := true;
  }

  lemma FileChunk(data: seq<Byte>, ph: ProgramHeader, x: nat, n: nat)
    requires ph.fileOffset + ph.fileSize <= |data| && x + n <= ph.fileSize
    ensures SegmentBytes(data, ph, x, n) == data[ph.fileOffset + x..ph.fileOffset + x + n]
  {}

  lemma ZeroChunk(data: seq<Byte>, ph: ProgramHeader, x: nat, n: nat)
    requires ph.fileOffset + ph.fileSize <= |data| && ph.fileSize <= x
    ensures SegmentBytes(data, ph, x, n) == seq(n, _ => 0)
  {}

  /** Maps and fills one segment that takes up memory. */
  method LoadSegment(space: OffsetPageTable, data: seq<Byte>, ph: ProgramHeader) returns (ok: bool)
    requires space.Sound() && ph.memSize > 0
    requires ph.fileOffset + ph.fileSize <= |data| && ph.fileSize <= ph.memSize
    modifies space`owner, space.phys
    ensures Mapping(space.phys.mem, space.phys.supply, ok)
            == SegmentIn(old(space.phys.mem), old(space.phys.supply), space.pml4, data, ph)
    ensures space.Sound()
  {
    hide ValidSupply, RegionIn, FillIn;
    var writable, noExecute := Bit(ph.flags, PF_W), !Bit(ph.flags, PF_X);
    ok := MapUserRegion(space, ph.vaddr, ph.memSize, RegionFlags(writable, noExecute));
    if ok {
      ok := FillSegment(space, data, ph);
    }
  }

  /** The loop of `new_from_elf` over the program headers. */
  method LoadSegments(space: OffsetPageTable, data: seq<Byte>, h: Header) returns (r: Outcome)
    requires space.Sound() && 56 <= h.phentsize
    modifies space`owner, space.phys
    ensures Loading(space.phys.mem, space.phys.supply, r)
            == HeadersIn(old(space.phys.mem), old(space.phys.supply), space.pml4, data, h, h.phnum)
    ensures space.Sound()
  {
    hide ValidSupply, SegmentIn, ParseProgramHeader;
    ghost var m, supply := space.phys.mem, space.phys.supply;
    var i := 0;
    while i < h.phnum
      invariant i <= h.phnum && space.Sound()
      invariant Loading(space.phys.mem, space.phys.supply, Done) == HeadersIn(m, supply, space.pml4, data, h, i)
    {
      r := Done;
      var parsed := ParseProgramHeader(data, h, i);
      if parsed.Err? {
        r := Bad(parsed.error);
      } else if parsed.value.Some? && parsed.value.value.memSize > 0 {
        var ph := parsed.value.value;
        if ph.fileOffset + ph.fileSize > |data| {
          r := Bad(ProgramHeaderOutOfBounds);
        } else {
          var ok := LoadSegment(space, data, ph);
          r := if ok then Done else Panic;
        }
      }
      i := i + 1;
      if r != Done {
        Stopped(m, supply, space.pml4, data, h, i, h.phnum);
        return;
      }
    }
    r := Done;
  }

  /** The first program header that does not go well ends the loop. */
  lemma {:induction false} Stopped(m: Memory, supply: seq<nat>, pml4: nat, data: seq<Byte>, h: Header, i: nat, n: nat)
    requires Sound(m, supply, pml4) && 56 <= h.phentsize && i <= n
    requires HeadersIn(m, supply, pml4, data, h, i).outcome != Done
    ensures HeadersIn(m, supply, pml4, data, h, n) == HeadersIn(m, supply, pml4, data, h, i)
  {
    hide HeaderIn;
    if i < n {
      Stopped(m, supply, pml4, data, h, i, n - 1);
    }
  }

  /** `Process::new_from_elf`. */
  method NewFromElf(phys: PhysicalMemory, data: seq<Byte>, cr3: nat) returns (r: LoadResult)
    requires Sound(phys.mem, phys.supply, cr3) && cr3 !in phys.supply
    modifies phys
    ensures LoadStep(phys.mem, phys.supply, r) == LoadIn(old(phys.mem), old(phys.supply), data, cr3)
  {
    hide ParseHeader, RegionIn, HeadersIn, SpaceMade;
    ghost var m, supply := phys.mem, phys.supply;
    var header := ParseHeader(data);
    if header.Err? {
      return Malformed(header.error);
    }
    var h := header.value;
    var p := phys.CreateProcessPml4(cr3);
    if p.None? {
      return Panicked;
    }
    FirstInSupply(m, supply);
    RootMade(m, phys.mem, p.value, cr3);
    if !Canonical(h.entry) {
      return Panicked;
    }
    var space := new OffsetPageTable(phys, p.value, 0, 256);
    var ok := MapUserRegion(space, USER_STACK_START, USER_STACK_SIZE, RegionFlags(true, false));
    if !ok {
      return Panicked;
    }
    var outcome := LoadSegments(space, data, h);
    match outcome
    case Bad(e) => return Malformed(e);
    case Panic => return Panicked;
    case Done => return Loaded(p.value, h.entry, USER_STACK_START + USER_STACK_SIZE);
  }

  lemma RootMade(m: Memory, e: Memory, p: nat, cr3: nat)
    requires p in m && p in e && cr3 in m && SameOutside(m, e, {p})
    requires forall i :: 0 <= i < 256 ==> e[p][i] == ZERO
    requires forall i :: 256 <= i < 512 ==> e[p][i] == m[cr3][i]
    ensures e == m[p := ProcessRoot(m[cr3])]
  {
    assert e[p] == ProcessRoot(m[cr3]);
  }
}
