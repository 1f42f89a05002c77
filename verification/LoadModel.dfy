/** Loading a process step by step, over any memory, any page tables and any image (`kernel/src/process.rs`). */
module LoadModel {
  import opened Words
  import opened PageTables
  import opened AddressSpaces
  import opened UserMemory
  import opened Bytes
  import opened KernelElf

  /** The PML4 is there, and the allocator gives existing frames. */
  ghost predicate Sound(m: Memory, supply: seq<nat>, pml4: nat) {
    pml4 in m && ValidSupply(m, supply)
  }

  /** `VirtAddr::new` accepts the address; it panics on any other. */
  predicate Canonical(va: nat) {
    va < LOWER_HALF_END || UPPER_HALF_START <= va < TWO_64
  }

  // ---- Regions ----

  /** The flag bits of a leaf entry, below and above the frame number. */
  datatype RawFlags = Flags(lo: nat, hi: nat)

  type Flags = f: RawFlags | f.lo < TWO_12 && f.hi < TWO_12 && Bit(f.lo, PRESENT) witness Flags(1, 0)

  const PAGE_FLAGS: nat := 5           // PRESENT | USER_ACCESSIBLE
  const NO_EXECUTE_FLAG: nat := 0x800  // bit 63

  /** The flags of a user region: the page is present and open to user code, writable and executable
      as asked. */
  function RegionFlags(writable: bool, noExecute: bool): (f: Flags)
    ensures Bit(f.lo, USER) && (Bit(f.lo, WRITABLE) <==> writable) && (Bit(f.hi, NO_EXECUTE_HI) <==> noExecute)
  {
    Flags(if writable then PAGE_FLAGS + 2 else PAGE_FLAGS, if noExecute then NO_EXECUTE_FLAG else 0)
  }

  /** The memory and the frames left after a step that may panic. */
  datatype Mapping = Mapping(mem: Memory, supply: seq<nat>, ok: bool)

  /** One page of `map_user_region`: left alone when it is mapped, else given a new frame. */
  ghost function PageIn(m: Memory, supply: seq<nat>, pml4: nat, page: nat, f: Flags): (r: Mapping)
    requires Sound(m, supply, pml4)
    ensures r.mem.Keys == m.Keys && Sound(r.mem, r.supply, pml4)
  {
    var path := PathOf(page * PAGE_SIZE);
    match Locate(m, pml4, path)
    case At(_) => Mapping(m, supply, true)
    case Broken => Mapping(m, supply, false)
    case Absent =>
      if supply == [] then Mapping(m, supply, false)
      else
        FirstInSupply(m, supply);
        var s := MapPath(m, supply[1..], pml4, path, supply[0], f.lo, f.hi);
        Mapping(s.mem, s.supply, s.result == Mapped)
  }

  /** The last page below the gap between the halves. The page iterator steps past every page it yields, so it
      panics there. */
  const LAST_LOWER_PAGE: nat := LOWER_HALF_END / PAGE_SIZE - 1

  /** The pages from `page` to `last`. */
  ghost function PagesIn(m: Memory, supply: seq<nat>, pml4: nat, page: nat, last: nat, f: Flags): (r: Mapping)
    requires Sound(m, supply, pml4)
    ensures r.mem.Keys == m.Keys && Sound(r.mem, r.supply, pml4)
    decreases last + 1 - page
  {
    if page > last then Mapping(m, supply, true)
    else if page == LAST_LOWER_PAGE then Mapping(m, supply, false)
    else
      var r := PageIn(m, supply, pml4, page, f);
      if r.ok then PagesIn(r.mem, r.supply, pml4, page + 1, last, f) else r
  }

  /** The PML4 entry after the last step of `map_user_region`: USER_ACCESSIBLE is set, the rest stays. */
  function UserEntry(w: Word): (v: Word)
    ensures v.frame == w.frame && v.hi == w.hi
    ensures forall k :: Bit(v.lo, k) == (k == USER || Bit(w.lo, k))
  {
    Word(WithFlag(w.lo, USER, true), w.frame, w.hi)
  }

  function LastPage(start: nat, size: nat): nat
    requires size > 0
  {
    (start + size - 1) / PAGE_SIZE
  }

  /** `map_user_region`. */
  ghost function RegionIn(m: Memory, supply: seq<nat>, pml4: nat, start: nat, size: nat, f: Flags): (r: Mapping)
    requires Sound(m, supply, pml4) && size > 0
    ensures r.mem.Keys == m.Keys && Sound(r.mem, r.supply, pml4)
  {
    if !Canonical(start) || !Canonical(start + size) then Mapping(m, supply, false)
    else
      var r := PagesIn(m, supply, pml4, start / PAGE_SIZE, LastPage(start, size), f);
      var i := PathOf(start)[0];
      if r.ok then r.(mem := WriteEntry(r.mem, pml4, i, UserEntry(r.mem[pml4][i]))) else r
  }

  // ---- Segments ----

  /** Byte `x` of a segment in memory: from the file, then zero. */
  function SegmentByte(data: seq<Byte>, ph: ProgramHeader, x: nat): Byte
    requires ph.fileOffset + ph.fileSize <= |data|
  {
    if x < ph.fileSize then data[ph.fileOffset + x] else 0
  }

  function SegmentBytes(data: seq<Byte>, ph: ProgramHeader, offset: nat, n: nat): (b: seq<Byte>)
    requires ph.fileOffset + ph.fileSize <= |data|
    ensures |b| == n && forall k :: 0 <= k < n ==> b[k] == SegmentByte(data, ph, offset + k)
  {
    seq<Byte>(n, k requires 0 <= k < n => SegmentByte(data, ph, offset + k))
  }

  /** As much of what is left as lies on the page of `va`. */
  function ChunkSize(left: nat, va: nat): (n: nat)
    requires left > 0
    ensures 0 < n <= left && va % PAGE_SIZE + n <= PAGE_SIZE
  {
    if left <= PAGE_SIZE - va % PAGE_SIZE then left else PAGE_SIZE - va % PAGE_SIZE
  }

  datatype Storing = Storing(mem: Memory, ok: bool)

  /** Stores bytes that lie on one page through the translation of their first address. */
  function StoreIn(m: Memory, pml4: nat, va: nat, bytes: seq<Byte>): (s: Storing)
    requires va % PAGE_SIZE + |bytes| <= PAGE_SIZE
    ensures s.mem.Keys == m.Keys
  {
    match Locate(m, pml4, PathOf(va))
    case At(f) => if f in m then Storing(m[f := StoreBytes(m[f], va % PAGE_SIZE, bytes)], true) else Storing(m, false)
    case _ => Storing(m, false)
  }

  /** The copy loop and the zero-fill loop, from byte `offset` of the segment on. */
  ghost function FillIn(m: Memory, pml4: nat, data: seq<Byte>, ph: ProgramHeader, offset: nat): (s: Storing)
    requires ph.fileOffset + ph.fileSize <= |data| && ph.fileSize <= ph.memSize
    ensures s.mem.Keys == m.Keys
    decreases ph.memSize - offset
  {
    if offset >= ph.memSize then Storing(m, true)
    else
      var n := NextChunk(ph, offset);
      var s := StoreIn(m, pml4, ph.vaddr + offset, SegmentBytes(data, ph, offset, n));
      if s.ok then FillIn(s.mem, pml4, data, ph, offset + n) else s
  }

  /** The size of the chunk at byte `x` of a segment. */
  function NextChunk(ph: ProgramHeader, x: nat): (n: nat)
    requires x < ph.memSize && ph.fileSize <= ph.memSize
    ensures 0 < n && x + n <= ph.memSize && (ph.vaddr + x) % PAGE_SIZE + n <= PAGE_SIZE
  {
    ChunkSize((if x < ph.fileSize then ph.fileSize else ph.memSize) - x, ph.vaddr + x)
  }

  lemma FillNone(m: Memory, pml4: nat, data: seq<Byte>, ph: ProgramHeader, x: nat)
    requires ph.fileOffset + ph.fileSize <= |data| && ph.fileSize <= ph.memSize <= x
    ensures FillIn(m, pml4, data, ph, x) == Storing(m, true)
  {}

  /** One chunk, then the rest. */
  lemma {:induction false} FillStep(m: Memory, pml4: nat, data: seq<Byte>, ph: ProgramHeader, x: nat)
    requires ph.fileOffset + ph.fileSize <= |data| && ph.fileSize <= ph.memSize && x < ph.memSize
    ensures var n := NextChunk(ph, x);
            var s := StoreIn(m, pml4, ph.vaddr + x, SegmentBytes(data, ph, x, n));
            FillIn(m, pml4, data, ph, x) == if s.ok then FillIn(s.mem, pml4, data, ph, x + n) else s
  {
    hide StoreIn, SegmentBytes, ChunkSize;
  }

  function SegmentFlags(ph: ProgramHeader): Flags {
    RegionFlags(Bit(ph.flags, PF_W), !Bit(ph.flags, PF_X))
  }

  /** One segment that takes up memory, mapped and filled. */
  ghost function SegmentIn(m: Memory, supply: seq<nat>, pml4: nat, data: seq<Byte>, ph: ProgramHeader): (r: Mapping)
    requires Sound(m, supply, pml4) && ph.memSize > 0
    requires ph.fileOffset + ph.fileSize <= |data| && ph.fileSize <= ph.memSize
    ensures r.mem.Keys == m.Keys && Sound(r.mem, r.supply, pml4)
  {
    var r := RegionIn(m, supply, pml4, ph.vaddr, ph.memSize, SegmentFlags(ph));
    if !r.ok then r
    else
      var s := FillIn(r.mem, pml4, data, ph, 0);
      Mapping(s.mem, r.supply, s.ok)
  }

  // ---- Whole images ----

  datatype Outcome = Done | Bad(error: ParseError) | Panic

  datatype Loading = Loading(mem: Memory, supply: seq<nat>, outcome: Outcome)

  /** One program header: nothing to do for one that is no segment, or an empty one. */
  ghost function HeaderIn(m: Memory, supply: seq<nat>, pml4: nat, data: seq<Byte>, h: Header, i: nat): (l: Loading)
    requires Sound(m, supply, pml4) && 56 <= h.phentsize
    ensures l.mem.Keys == m.Keys && Sound(l.mem, l.supply, pml4)
  {
    match ParseProgramHeader(data, h, i)
    case Err(e) => Loading(m, supply, Bad(e))
    case Ok(None) => Loading(m, supply, Done)
    case Ok(Some(ph)) =>
      if ph.memSize == 0 then Loading(m, supply, Done)
      else if ph.fileOffset + ph.fileSize > |data| then Loading(m, supply, Bad(ProgramHeaderOutOfBounds))
      else
        var r := SegmentIn(m, supply, pml4, data, ph);
        Loading(r.mem, r.supply, if r.ok then Done else Panic)
  }

  /** The first `n` program headers. */
  ghost function HeadersIn(m: Memory, supply: seq<nat>, pml4: nat, data: seq<Byte>, h: Header, n: nat): (l: Loading)
    requires Sound(m, supply, pml4) && 56 <= h.phentsize
    ensures l.mem.Keys == m.Keys && Sound(l.mem, l.supply, pml4)
  {
    if n == 0 then Loading(m, supply, Done)
    else
      var l := HeadersIn(m, supply, pml4, data, h, n - 1);
      if l.outcome == Done then HeaderIn(l.mem, l.supply, pml4, data, h, n - 1) else l
  }

  const USER_STACK_START: nat := 0x7000_0000_0000
  const USER_STACK_SIZE: nat := 0x8000

  datatype LoadResult =
    | Loaded(pml4: nat, entry: nat, stackTop: nat)
    | Malformed(error: ParseError)
    | Panicked

  datatype LoadStep = LoadStep(mem: Memory, supply: seq<nat>, result: LoadResult)

  /** The PML4 that `create_process_pml4` makes: no user half, and the kernel half of the running one. */
  function ProcessRoot(running: Table): (t: Table)
    ensures forall i :: 0 <= i < 512 ==> t[i] == if i < 256 then ZERO else running[i]
  {
    seq(512, i requires 0 <= i < 512 => if i < 256 then ZERO else running[i])
  }

  /** `Process::new_from_elf`. */
  ghost function LoadIn(m: Memory, supply: seq<nat>, data: seq<Byte>, cr3: nat): (s: LoadStep)
    requires Sound(m, supply, cr3)
    ensures s.mem.Keys == m.Keys && ValidSupply(s.mem, s.supply)
  {
    match ParseHeader(data)
    case Err(e) => LoadStep(m, supply, Malformed(e))
    case Ok(h) =>
      if supply == [] then LoadStep(m, supply, Panicked)
      else
        FirstInSupply(m, supply);
        var p := supply[0];
        var m1 := m[p := ProcessRoot(m[cr3])];
        if !Canonical(h.entry) then LoadStep(m1, supply[1..], Panicked)
        else
          var r := RegionIn(m1, supply[1..], p, USER_STACK_START, USER_STACK_SIZE, RegionFlags(true, false));
          if !r.ok then LoadStep(r.mem, r.supply, Panicked)
          else
            var l := HeadersIn(r.mem, r.supply, p, data, h, h.phnum);
            LoadStep(l.mem, l.supply,
                     match l.outcome
                     case Done => Loaded(p, h.entry, USER_STACK_START + USER_STACK_SIZE)
                     case Bad(e) => Malformed(e)
                     case Panic => Panicked)
  }
}
