/** Loading the kernel image and mapping it to the higher half (`boot/uefi-loader`). */
module KernelImage {
  import opened Words
  import opened Bytes
  import opened LoaderElf
  import opened PageTables
  import opened CloneTables
  import opened AddressSpaces
  import opened UserMemory

  datatype LoadedKernel = LoadedKernel(entry: nat, virtualBase: nat, physicalBase: nat, imageSize: nat)

  // ---- What a loaded image is ----

  /** The segment's memory does not wrap and its file part lies in the image. */
  predicate SegmentFits(image: seq<Byte>, s: ProgramHeader) {
    s.vaddr + s.memSize < TWO_64 && s.fileOffset + s.fileSize <= |image| && s.fileSize <= s.memSize
      && s.vaddr % PAGE_SIZE == 0
  }

  function Min(a: nat, b: nat): nat { if a <= b then a else b }

  function Max(a: nat, b: nat): nat { if a >= b then a else b }

  /** The lowest segment address, starting from the all-ones address. */
  function LowestAddress(segs: seq<ProgramHeader>): nat {
    if segs == [] then TWO_64 - 1 else Min(LowestAddress(segs[..|segs| - 1]), segs[|segs| - 1].vaddr)
  }

  function HighestEnd(segs: seq<ProgramHeader>): nat {
    if segs == [] then 0 else Max(HighestEnd(segs[..|segs| - 1]), segs[|segs| - 1].vaddr + segs[|segs| - 1].memSize)
  }

  /** The bounds enclose every segment, and are attained. */
  lemma {:induction false} BoundsEnclose(segs: seq<ProgramHeader>, image: seq<Byte>)
    requires forall k :: 0 <= k < |segs| ==> SegmentFits(image, segs[k])
    ensures forall k :: 0 <= k < |segs| ==>
              LowestAddress(segs) <= segs[k].vaddr && segs[k].vaddr + segs[k].memSize <= HighestEnd(segs) < TWO_64
    ensures segs != [] ==> LowestAddress(segs) <= HighestEnd(segs) && LowestAddress(segs) % PAGE_SIZE == 0
    ensures segs == [] ==> HighestEnd(segs) < TWO_64
  {
    if segs != [] {
      var before := segs[..|segs| - 1];
      BoundsEnclose(before, image);
      assert SegmentFits(image, segs[|segs| - 1]);
      assert forall k :: 0 <= k < |before| ==> segs[k] == before[k];
    }
  }

  /** Byte `x` of the image in memory: the file's byte of the last segment whose file part covers it,
      and zero where none does. */
  function KernelByte(segs: seq<ProgramHeader>, image: seq<Byte>, base: nat, x: nat): Byte
    requires forall k :: 0 <= k < |segs| ==> SegmentFits(image, segs[k])
  {
    if segs == [] then 0
    else
      var last := segs[|segs| - 1];
      assert SegmentFits(image, last);
      if last.vaddr <= base + x < last.vaddr + last.fileSize then image[last.fileOffset + (base + x - last.vaddr)]
      else KernelByte(segs[..|segs| - 1], image, base, x)
  }

  /** The images that can be loaded. */
  ghost predicate Loadable(image: seq<Byte>, segs: seq<ProgramHeader>) {
    && ParseHeader(image).Ok?
    && Segments(image, ParseHeader(image).value, ParseHeader(image).value.phnum) == Ok(segs)
    && segs != [] && forall k :: 0 <= k < |segs| ==> SegmentFits(image, segs[k])
  }

  function PageCount(size: nat): (n: nat)
    ensures size <= n * PAGE_SIZE < size + PAGE_SIZE
  {
    (size + PAGE_SIZE - 1) / PAGE_SIZE
  }

  /** The pages the image takes up. */
  function ImagePages(segs: seq<ProgramHeader>): nat {
    PageCount(if LowestAddress(segs) <= HighestEnd(segs) then HighestEnd(segs) - LowestAddress(segs) else 0)
  }

  lemma {:induction false} SegmentsUpTo(image: seq<Byte>, h: Header, n: nat, n': nat)
    requires 56 <= h.phentsize && n <= n' && Segments(image, h, n').Ok?
    ensures Segments(image, h, n).Ok?
    ensures var s, s' := Segments(image, h, n).value, Segments(image, h, n').value; |s| <= |s'| && s == s'[..|s|]
  {
    if n < n' {
      SegmentsUpTo(image, h, n, n' - 1);
    }
  }

  /** A program header that is refused, or a segment that does not fit, rules the image out. */
  lemma NotLoadable(image: seq<Byte>, h: Header, i: nat)
    requires ParseHeader(image) == Ok(h) && i < h.phnum
    requires var r := ParseProgramHeader(image, h, i); r.Err? || (r.value.Some? && !SegmentFits(image, r.value.value))
    ensures forall s :: !Loadable(image, s)
  {
    hide ParseHeader, ParseProgramHeader;
    forall s | Loadable(image, s) ensures false {
      FittingHeader(image, h, i, s);
    }
  }

  lemma FittingHeader(image: seq<Byte>, h: Header, i: nat, s: seq<ProgramHeader>)
    requires ParseHeader(image) == Ok(h) && i < h.phnum && Loadable(image, s)
    ensures var r := ParseProgramHeader(image, h, i); r.Ok? && (r.value.Some? ==> SegmentFits(image, r.value.value))
  {
    hide ParseHeader, ParseProgramHeader;
    SegmentsUpTo(image, h, i + 1, h.phnum);
    var r := ParseProgramHeader(image, h, i);
    if r.value.Some? {
      var upTo := Segments(image, h, i + 1).value;
      assert s[|upTo| - 1] == upTo[|upTo| - 1] == r.value.value;
    }
  }

  /** The error of the first program header that is refused or whose segment wraps around. */
  function FirstPassError(image: seq<Byte>, h: Header, n: nat): Option<LoadError>
    requires 56 <= h.phentsize
  {
    if n == 0 then None
    else if FirstPassError(image, h, n - 1).Some? then FirstPassError(image, h, n - 1)
    else match ParseProgramHeader(image, h, n - 1)
      case Err(e) => Some(e)
      case Ok(Some(ph)) => if ph.vaddr + ph.memSize >= TWO_64 then Some(SegmentAddressOverflow) else None
      case Ok(None) => None
  }

  lemma {:induction false} FirstPassErrorStays(image: seq<Byte>, h: Header, i: nat, n: nat)
    requires 56 <= h.phentsize && i <= n && FirstPassError(image, h, i).Some?
    ensures FirstPassError(image, h, n) == FirstPassError(image, h, i)
  {
    hide ParseProgramHeader;
    if i < n {
      FirstPassErrorStays(image, h, i, n - 1);
    }
  }

  /** Which error an image that cannot be loaded gives: those of the headers come before those of the
      whole image, those before a refused allocation, and a segment outside the file comes last. */
  ghost function Failure(image: seq<Byte>, allocate: nat -> Option<nat>): LoadError {
    match ParseHeader(image)
    case Err(e) => e
    case Ok(h) =>
      var segs := Segments(image, h, h.phnum);
      if FirstPassError(image, h, h.phnum).Some? then FirstPassError(image, h, h.phnum).value
      else if segs.Err? then segs.error
      else if segs.value == [] then NoLoadSegments
      else if LowestAddress(segs.value) % 0x1000 != 0 then SegmentAlignment(LowestAddress(segs.value))
      else if allocate(ImagePages(segs.value)).None? then AllocationFailed
      else SegmentOutOfBounds
  }

  // ---- The two passes ----

  datatype Bounds = Bounds(loadable: nat, base: nat, end: nat)

  /** The first pass of `load_kernel`: the bounds of all segments. */
  method MeasureImage(image: seq<Byte>, h: Header)
    returns (r: Result<Bounds, LoadError>, ghost segs: seq<ProgramHeader>)
    requires ParseHeader(image) == Ok(h)
    ensures r.Err? ==> FirstPassError(image, h, h.phnum) == Some(r.error) && forall s :: !Loadable(image, s)
    ensures r.Ok? ==>
              && FirstPassError(image, h, h.phnum) == None && Segments(image, h, h.phnum) == Ok(segs)
              && r.value == Bounds(|segs|, LowestAddress(segs), HighestEnd(segs))
              && forall k :: 0 <= k < |segs| ==> segs[k].vaddr + segs[k].memSize < TWO_64
  {
    hide ParseHeader, ParseProgramHeader;
    segs := [];
    var count, base, end := 0, TWO_64 - 1, 0;
    var i := 0;
    while i < h.phnum
      invariant i <= h.phnum && 56 <= h.phentsize && Segments(image, h, i) == Ok(segs)
      invariant FirstPassError(image, h, i) == None
      invariant count == |segs| && base == LowestAddress(segs) && end == HighestEnd(segs)
      invariant forall k :: 0 <= k < |segs| ==> segs[k].vaddr + segs[k].memSize < TWO_64
    {
      var parsed := ParseProgramHeader(image, h, i);
      if parsed.Err? {
        NotLoadable(image, h, i);
        FirstPassErrorStays(image, h, i + 1, h.phnum);
        return Err(parsed.error), [];
      }
      if parsed.value.Some? {
        var ph := parsed.value.value;
        count := count + 1;
        base := Min(base, ph.vaddr);
        if ph.vaddr + ph.memSize >= TWO_64 {
          NotLoadable(image, h, i);
          FirstPassErrorStays(image, h, i + 1, h.phnum);
          return Err(SegmentAddressOverflow), [];
        }
        end := Max(end, ph.vaddr + ph.memSize);
        assert (segs + [ph])[..|segs|] == segs;
        segs := segs + [ph];
      }
      i := i + 1;
    }
    r := Ok(Bounds(count, base, end));
  }

  // ---- Physical bytes ----

  function PhysByte(m: Memory, a: nat): Option<Byte> {
    if a / PAGE_SIZE in m then Some(FrameByte(m[a / PAGE_SIZE], a % PAGE_SIZE)) else None
  }

  /** The byte `x` bytes after physical address `at`. */
  function ByteFrom(m: Memory, at: nat, x: nat): Option<Byte> {
    PhysByte(m, at + x)
  }

  function StorePhys(m: Memory, a: nat, b: Byte): Memory
    requires a / PAGE_SIZE in m
  {
    m[a / PAGE_SIZE := StoreByte(m[a / PAGE_SIZE], a % PAGE_SIZE, b)]
  }

  lemma StorePhysByte(m: Memory, a: nat, b: Byte, c: nat)
    requires a / PAGE_SIZE in m
    ensures PhysByte(StorePhys(m, a, b), c) == if c == a then Some(b) else PhysByte(m, c)
  {
    hide StoreByte, FrameByte;
    assert a == PAGE_SIZE * (a / PAGE_SIZE) + a % PAGE_SIZE && c == PAGE_SIZE * (c / PAGE_SIZE) + c % PAGE_SIZE;
  }

  lemma {:induction false} ZeroByte(j: nat)
    ensures NatByte(0, j) == 0
  {
    if j > 0 {
      ZeroByte(j - 1);
    }
  }

  lemma EmptyFrame(k: nat)
    requires k < PAGE_SIZE
    ensures FrameByte(EmptyTable(), k) == 0
  {
    ZeroByte(k % 8);
  }

  /** `e` differs from `m` only in the frames `frame .. frame + pages`. */
  ghost predicate OnlyFrames(m: Memory, e: Memory, frame: nat, pages: nat) {
    e.Keys == m.Keys && forall f :: f in m && !(frame <= f < frame + pages) ==> e[f] == m[f]
  }

  ghost predicate HasFrames(m: Memory, frame: nat, pages: nat) {
    forall f :: frame <= f < frame + pages ==> f in m
  }

  lemma AddressInFrames(at: nat, pages: nat, x: nat)
    requires at % PAGE_SIZE == 0 && x < pages * PAGE_SIZE
    ensures at / PAGE_SIZE <= (at + x) / PAGE_SIZE < at / PAGE_SIZE + pages
    ensures (at + x) / PAGE_SIZE == at / PAGE_SIZE + x / PAGE_SIZE && (at + x) % PAGE_SIZE == x % PAGE_SIZE
  {
    assert at == PAGE_SIZE * (at / PAGE_SIZE) && x == PAGE_SIZE * (x / PAGE_SIZE) + x % PAGE_SIZE;
    assert at + x == PAGE_SIZE * (at / PAGE_SIZE + x / PAGE_SIZE) + x % PAGE_SIZE;
  }

  /** `write_bytes` with zero over whole pages. */
  method ZeroPages(phys: PhysicalMemory, at: nat, pages: nat)
    requires at % PAGE_SIZE == 0 && HasFrames(phys.mem, at / PAGE_SIZE, pages)
    modifies phys
    ensures phys.supply == old(phys.supply) && OnlyFrames(old(phys.mem), phys.mem, at / PAGE_SIZE, pages)
    ensures forall x :: 0 <= x < pages * PAGE_SIZE ==> ByteFrom(phys.mem, at, x) == Some(0)
  {
    var frame, i := at / PAGE_SIZE, 0;
    while i < pages
      invariant i <= pages && phys.supply == old(phys.supply) && OnlyFrames(old(phys.mem), phys.mem, frame, pages)
      invariant forall f :: frame <= f < frame + i ==> f in phys.mem && phys.mem[f] == EmptyTable()
    {
      phys.mem := phys.mem[frame + i := EmptyTable()];
      i := i + 1;
    }
    forall x | 0 <= x < pages * PAGE_SIZE ensures ByteFrom(phys.mem, at, x) == Some(0) {
      AddressInFrames(at, pages, x);
      EmptyFrame(x % PAGE_SIZE);
    }
  }

  /** From `m` to `e` the bytes `data` were stored at `at`. */
  ghost predicate CopiedAt(m: Memory, e: Memory, at: nat, data: seq<Byte>) {
    forall a: nat :: PhysByte(e, a) == if at <= a < at + |data| then Some(data[a - at]) else PhysByte(m, a)
  }

  lemma CopiedNone(m: Memory, at: nat)
    ensures CopiedAt(m, m, at, [])
  {}

  lemma CopiedNext(m: Memory, e: Memory, at: nat, data: seq<Byte>, j: nat)
    requires j < |data| && CopiedAt(m, e, at, data[..j]) && (at + j) / PAGE_SIZE in e
    ensures CopiedAt(m, StorePhys(e, at + j, data[j]), at, data[..j + 1])
  {
    hide PhysByte, StorePhys;
    forall a: nat
      ensures PhysByte(StorePhys(e, at + j, data[j]), a) ==
              if at <= a < at + j + 1 then Some(data[..j + 1][a - at]) else PhysByte(m, a)
    {
      StorePhysByte(e, at + j, data[j], a);
    }
  }

  /** `copy_nonoverlapping` of bytes to an address inside the given pages. */
  method CopyBytes(phys: PhysicalMemory, at: nat, data: seq<Byte>, ghost start: nat, ghost pages: nat)
    requires start % PAGE_SIZE == 0 && start <= at && at + |data| <= start + pages * PAGE_SIZE
    requires HasFrames(phys.mem, start / PAGE_SIZE, pages)
    modifies phys
    ensures phys.supply == old(phys.supply) && OnlyFrames(old(phys.mem), phys.mem, start / PAGE_SIZE, pages)
    ensures CopiedAt(old(phys.mem), phys.mem, at, data)
  {
    hide CopiedAt, PhysByte, StorePhys;
    var j := 0;
    CopiedNone(phys.mem, at);
    while j < |data|
      invariant j <= |data| && phys.supply == old(phys.supply)
      invariant OnlyFrames(old(phys.mem), phys.mem, start / PAGE_SIZE, pages)
      invariant CopiedAt(old(phys.mem), phys.mem, at, data[..j])
    {
      AddressInFrames(start, pages, at + j - start);
      CopiedNext(old(phys.mem), phys.mem, at, data, j);
      StoredInFrames(old(phys.mem), phys.mem, start / PAGE_SIZE, pages, at + j, data[j]);
      phys.mem := StorePhys(phys.mem, at + j, data[j]);
      j := j + 1;
    }
    assert data[..j] == data;
  }

  lemma StoredInFrames(m: Memory, e: Memory, frame: nat, pages: nat, a: nat, b: Byte)
    requires OnlyFrames(m, e, frame, pages) && a / PAGE_SIZE in e && frame <= a / PAGE_SIZE < frame + pages
    ensures OnlyFrames(m, StorePhys(e, a, b), frame, pages)
  {}

  // ---- The second pass ----

  /** The bytes from physical address `at` on are the file parts of `segs`, later ones over earlier ones, on zeros. */
  ghost predicate ImageAt(m: Memory, at: nat, size: nat, segs: seq<ProgramHeader>, image: seq<Byte>, base: nat)
    requires forall k :: 0 <= k < |segs| ==> SegmentFits(image, segs[k])
  {
    forall x :: 0 <= x < size ==> ByteFrom(m, at, x) == Some(KernelByte(segs, image, base, x))
  }

  lemma ImageOneMore(m: Memory, e: Memory, at: nat, size: nat, segs: seq<ProgramHeader>, image: seq<Byte>, base: nat,
                     ph: ProgramHeader)
    requires forall k :: 0 <= k < |segs| ==> SegmentFits(image, segs[k])
    requires SegmentFits(image, ph) && base <= ph.vaddr && ImageAt(m, at, size, segs, image, base)
    requires CopiedAt(m, e, at + (ph.vaddr - base), image[ph.fileOffset..ph.fileOffset + ph.fileSize])
    ensures ImageAt(e, at, size, segs + [ph], image, base)
  {
    hide PhysByte;
    var more := segs + [ph];
    assert more[..|segs|] == segs && more[|segs|] == ph;
    forall x | 0 <= x < size ensures ByteFrom(e, at, x) == Some(KernelByte(more, image, base, x)) {
      assert ByteFrom(m, at, x) == Some(KernelByte(segs, image, base, x));
    }
  }

  /** The second pass: zeroed pages, then every segment's file part copied to its place. All writes fall inside
      the allocated pages. */
  method CopySegments(phys: PhysicalMemory, at: nat, image: seq<Byte>, h: Header, base: nat, end: nat,
                      ghost all: seq<ProgramHeader>)
    returns (r: Option<LoadError>)
    requires ParseHeader(image) == Ok(h) && Segments(image, h, h.phnum) == Ok(all)
    requires all != [] && base == LowestAddress(all) && end == HighestEnd(all) && base <= end
    requires forall k :: 0 <= k < |all| ==> all[k].vaddr + all[k].memSize < TWO_64
    requires at % PAGE_SIZE == 0 && HasFrames(phys.mem, at / PAGE_SIZE, PageCount(end - base))
    modifies phys
    ensures phys.supply == old(phys.supply)
    ensures OnlyFrames(old(phys.mem), phys.mem, at / PAGE_SIZE, PageCount(end - base))
    ensures r.Some? ==> r.value == SegmentOutOfBounds && forall s :: !Loadable(image, s)
    ensures r.None? ==>
              Loadable(image, all)
              && ImageAt(phys.mem, at, PageCount(end - base) * PAGE_SIZE, all, image, base)
  {
    hide ParseHeader, ParseProgramHeader, LowestAddress, HighestEnd, PhysByte, ImageAt, CopiedAt;
    BoundsOf(all, base, end);
    var pages := PageCount(end - base);
    ZeroPages(phys, at, pages);
    ImageNone(phys.mem, at, pages * PAGE_SIZE, image, base);
    ghost var segs: seq<ProgramHeader> := [];
    var i := 0;
    while i < h.phnum
      invariant i <= h.phnum && 56 <= h.phentsize && Segments(image, h, i) == Ok(segs)
                && phys.supply == old(phys.supply)
      invariant OnlyFrames(old(phys.mem), phys.mem, at / PAGE_SIZE, pages)
      invariant forall k :: 0 <= k < |segs| ==> SegmentFits(image, segs[k])
      invariant ImageAt(phys.mem, at, pages * PAGE_SIZE, segs, image, base)
    {
      var parsed := ParseProgramHeader(image, h, i);
      SegmentsUpTo(image, h, i + 1, h.phnum);
      if parsed.value.Some? {
        var ph := parsed.value.value;
        if ph.fileOffset + ph.fileSize > |image| {
          NotLoadable(image, h, i);
          return Some(SegmentOutOfBounds);
        }
        assert all[|segs|] == (segs + [ph])[|segs|] == ph;
        ghost var m := phys.mem;
        CopyBytes(phys, at + (ph.vaddr - base), image[ph.fileOffset..ph.fileOffset + ph.fileSize], at, pages);
        ImageOneMore(m, phys.mem, at, pages * PAGE_SIZE, segs, image, base, ph);
        segs := segs + [ph];
      }
      i := i + 1;
    }
    r := None;
  }

  lemma ImageNone(m: Memory, at: nat, size: nat, image: seq<Byte>, base: nat)
    requires forall x :: 0 <= x < size ==> ByteFrom(m, at, x) == Some(0)
    ensures ImageAt(m, at, size, [], image, base)
  {}

  lemma {:induction false} BoundsOf(all: seq<ProgramHeader>, base: nat, end: nat)
    requires all != [] && base == LowestAddress(all) && end == HighestEnd(all)
    ensures base <= end && forall k :: 0 <= k < |all| ==> base <= all[k].vaddr && all[k].vaddr + all[k].memSize <= end
  {
    if |all| > 1 {
      var before := all[..|all| - 1];
      BoundsOf(before, LowestAddress(before), HighestEnd(before));
      assert forall k :: 0 <= k < |before| ==> all[k] == before[k];
    }
  }

  /** What the firmware promises of the pages it gives: whole frames, in memory, none of them in `taken`. */
  ghost predicate Grants(m: Memory, taken: set<nat>, allocate: nat -> Option<nat>) {
    forall n :: BlockOk(m, taken, n, allocate(n))
  }

  /** A block of `n` pages starts on a page and has existing frames that are not taken. */
  ghost predicate BlockOk(m: Memory, taken: set<nat>, n: nat, at: Option<nat>) {
    at.Some? ==>
      && at.value % PAGE_SIZE == 0
      && forall f :: at.value / PAGE_SIZE <= f < at.value / PAGE_SIZE + n ==> f in m && f < TWO_40 && f !in taken
  }

  /** `load_kernel`. `allocate` is what the firmware answers to a request for pages. */
  method LoadKernel(phys: PhysicalMemory, image: seq<Byte>, allocate: nat -> Option<nat>, ghost taken: set<nat>)
    returns (r: Result<LoadedKernel, LoadError>, ghost segs: seq<ProgramHeader>)
    requires Grants(phys.mem, taken, allocate)
    modifies phys
    ensures phys.supply == old(phys.supply) && SameIn(old(phys.mem), phys.mem, taken)
    ensures r.Ok? <==> exists s :: Loadable(image, s) && allocate(ImagePages(s)).Some?
    ensures r.Err? ==> r.error == Failure(image, allocate)
    ensures r.Ok? ==>
              && Loadable(image, segs) && r.value.entry == ParseHeader(image).value.entry
              && r.value.virtualBase == LowestAddress(segs)
              && r.value.virtualBase + r.value.imageSize == HighestEnd(segs)
              && allocate(ImagePages(segs)) == Some(r.value.physicalBase)
              && ImagePages(segs) == PageCount(r.value.imageSize)
              && ImageAt(phys.mem, r.value.physicalBase, PageCount(r.value.imageSize) * PAGE_SIZE, segs, image,
                         r.value.virtualBase)
  {
    hide ParseHeader, ParseProgramHeader, LowestAddress, HighestEnd, Segments, FirstPassError, ImageAt, PageCount;
    segs := [];
    var header := ParseHeader(image);
    if header.Err? {
      return Err(header.error), [];
    }
    var h := header.value;
    var bounds;
    bounds, segs := MeasureImage(image, h);
    if bounds.Err? {
      return Err(bounds.error), [];
    }
    var Bounds(count, base, end) := bounds.value;
    if count == 0 {
      return Err(NoLoadSegments), [];
    }
    if base % 0x1000 != 0 {
      MisalignedImage(image, segs);
      return Err(SegmentAlignment(base)), [];
    }
    BoundsOf(segs, base, end);
    var allocation := allocate(PageCount(end - base));
    if allocation.None? {
      return Err(AllocationFailed), [];
    }
    var failed := CopySegments(phys, allocation.value, image, h, base, end, segs);
    if failed.Some? {
      return Err(failed.value), [];
    }
    return Ok(LoadedKernel(h.entry, base, allocation.value, end - base)), segs;
  }

  ghost predicate SameIn(m: Memory, e: Memory, area: set<nat>) {
    e.Keys == m.Keys && forall f :: f in m && f in area ==> e[f] == m[f]
  }

  lemma MisalignedImage(image: seq<Byte>, segs: seq<ProgramHeader>)
    requires ParseHeader(image).Ok? && Segments(image, ParseHeader(image).value, ParseHeader(image).value.phnum)
             == Ok(segs)
    requires LowestAddress(segs) % 0x1000 != 0
    ensures forall s :: !Loadable(image, s)
  {
    hide ParseHeader, LowestAddress, Segments;
    forall s | Loadable(image, s) ensures false {
      BoundsEnclose(segs, image);
    }
  }

  // ---- The higher-half mapping ----

  /** The image's pages lie in the upper half, and its frames exist and are nobody else's. */
  ghost predicate Mappable(m: Memory, supply: seq<nat>, owner: Owner, base: nat, frame: nat, pages: nat) {
    && base % PAGE_SIZE == 0 && UPPER_HALF_START <= base && base + pages * PAGE_SIZE <= TWO_64
    && forall i :: frame <= i < frame + pages ==> i in m && i < TWO_40 && i !in owner && i !in supply
  }

  lemma KernelPage(base: nat, i: nat, pages: nat)
    requires base % PAGE_SIZE == 0 && UPPER_HALF_START <= base && base + pages * PAGE_SIZE <= TWO_64 && i < pages
    ensures var va := base + i * PAGE_SIZE;
            && FullPath(PathOf(va), 256, 512) && va / 0x1_0000_0000_0000 == 0xFFFF
            && va / PAGE_SIZE == base / PAGE_SIZE + i
  {
    var va := base + i * PAGE_SIZE;
    assert UPPER_HALF_START <= va < TWO_64;
    UpperPath(va);
    assert va == PAGE_SIZE * (base / PAGE_SIZE + i);
  }

  lemma KernelPagesDistinct(base: nat, i: nat, j: nat, pages: nat)
    requires base % PAGE_SIZE == 0 && UPPER_HALF_START <= base && base + pages * PAGE_SIZE <= TWO_64 && i < pages
             && j < pages && i != j
    ensures PathOf(base + i * PAGE_SIZE) != PathOf(base + j * PAGE_SIZE)
  {
    hide PathOf;
    KernelPage(base, i, pages);
    KernelPage(base, j, pages);
    PathIdentifiesPage(base + i * PAGE_SIZE, base + j * PAGE_SIZE);
  }

  /** The first `n` frames are pages of the tree. */
  ghost predicate Placed(owner: Owner, frame: nat, n: nat) {
    forall i :: frame <= i < frame + n ==> i in owner && |owner[i]| == 4
  }

  /** The first `n` pages of the image are mapped to consecutive frames, the others not at all, and no page of the
      image has been written. */
  ghost predicate MappedFirst(m: Memory, e: Memory, owner: Owner, supply: seq<nat>, pml4: nat, base: nat, frame: nat,
                              pages: nat, n: nat) {
    && (forall i :: 0 <= i < n ==> WalkKernel(e, pml4, base, i) == Some(Word(3, frame + i, 0)))
    && (forall i :: n <= i < pages ==> WalkKernel(e, pml4, base, i) == None)
    && (forall i :: frame + n <= i < frame + pages ==> i !in owner && i !in supply)
    && (forall i :: frame <= i < frame + pages ==> i in m && i in e && e[i] == m[i])
  }

  ghost function WalkKernel(m: Memory, pml4: nat, base: nat, i: nat): Option<RawWord> {
    match Translate(m, pml4, base + i * PAGE_SIZE) case None => None case Some(w) => Some(w)
  }

  lemma MappedNext(m: Memory, e: Memory, owner: Owner, supply: seq<nat>, g: Memory, owner': Owner, supply': seq<nat>,
                   pml4: nat, base: nat, frame: nat, pages: nat, n: nat)
    requires MappedFirst(m, e, owner, supply, pml4, base, frame, pages, n) && n < pages
    requires base % PAGE_SIZE == 0 && UPPER_HALF_START <= base && base + pages * PAGE_SIZE <= TWO_64
    requires Grown(e, owner, Range(supply) + {frame + n}, g, owner', pml4, 256, 512, PathOf(base + n * PAGE_SIZE))
    requires forall f :: f in supply' ==> f in supply
    requires Placed(owner, frame, n)
    requires Translate(g, pml4, base + n * PAGE_SIZE) == Some(Word(3, frame + n, 0))
    requires frame + n in owner' && |owner'[frame + n]| == 4
    ensures MappedFirst(m, g, owner', supply', pml4, base, frame, pages, n + 1)
    ensures Placed(owner', frame, n + 1)
  {
    hide WalkTable, PathOf;
    forall i | 0 <= i < pages && i != n ensures WalkKernel(g, pml4, base, i) == WalkKernel(e, pml4, base, i) {
      KernelPagesDistinct(base, i, n, pages);
      KernelPage(base, i, pages);
    }
  }

  /** One page of the image. */
  method MapKernelPage(space: OffsetPageTable, ghost m: Memory, base: nat, frame: nat, pages: nat, i: nat)
    returns (ok: bool)
    requires space.Valid() && space.lo == 256 && space.hi == 512 && i < pages && frame + i < TWO_40
    requires base % PAGE_SIZE == 0 && UPPER_HALF_START <= base && base + pages * PAGE_SIZE <= TWO_64
    requires MappedFirst(m, space.phys.mem, space.owner, space.phys.supply, space.pml4, base, frame, pages, i)
    requires Placed(space.owner, frame, i)
    modifies space`owner, space.phys
    ensures space.Valid() && (!ok ==> space.phys.supply == [])
    ensures ok ==>
              && MappedFirst(m, space.phys.mem, space.owner, space.phys.supply, space.pml4, base, frame, pages, i + 1)
              && Placed(space.owner, frame, i + 1)
  {
    hide Owned, Grown, ValidSupply, WalkTable, PathOf, MappedFirst, Tree, Granted, Recorded, Prefixes, Linked,
         WalkKernel, Placed, FullPath, PathMapped, MapPath;
    ghost var e, o, s := space.phys.mem, space.owner, space.phys.supply;
    NextKernelFrame(m, e, o, s, space.pml4, base, frame, pages, i);
    KernelPage(base, i, pages);
    var path := PathOf(base + i * PAGE_SIZE);
    OwnersInMemory(e, o, space.pml4, 256, 512);
    var r := space.MapTo(path, frame + i, 3, 0);
    MappedNow(e, s, o, MapStep(space.phys.mem, space.phys.supply, r), space.owner, space.pml4, 256, 512, path,
              Word(3, frame + i, 0));
    ok := r == Mapped;
    if ok {
      KernelOwner(space.phys.mem, space.owner, space.pml4, path, frame + i);
      MappedNext(m, e, o, s, space.phys.mem, space.owner, space.phys.supply, space.pml4, base, frame, pages, i);
    }
  }

  /** Step 2 of `setup_mappings`: the image's pages, one by one, to consecutive frames. */
  method MapKernel(space: OffsetPageTable, k: LoadedKernel) returns (ok: bool)
    requires space.Valid() && space.lo == 256 && space.hi == 512 && k.physicalBase % PAGE_SIZE == 0
    requires Mappable(space.phys.mem, space.phys.supply, space.owner, k.virtualBase, k.physicalBase / PAGE_SIZE,
                      PageCount(k.imageSize))
    requires forall i ::
               0 <= i < PageCount(k.imageSize) ==> WalkKernel(space.phys.mem, space.pml4, k.virtualBase, i) == None
    modifies space`owner, space.phys
    ensures !ok ==> space.phys.supply == []
    ensures ok ==> MappedFirst(old(space.phys.mem), space.phys.mem, space.owner, space.phys.supply, space.pml4,
                               k.virtualBase, k.physicalBase / PAGE_SIZE, PageCount(k.imageSize),
                               PageCount(k.imageSize))
  {
    hide Owned, ValidSupply, MappedFirst, Tree, WalkKernel, Mappable, Placed, PageCount;
    var base, frame, pages := k.virtualBase, k.physicalBase / PAGE_SIZE, PageCount(k.imageSize);
    ghost var m, owner, supply := space.phys.mem, space.owner, space.phys.supply;
    MappedNone(m, space.owner, space.phys.supply, space.pml4, base, frame, pages);
    var i := 0;
    while i < pages
      invariant i <= pages && space.Valid()
      invariant MappedFirst(m, space.phys.mem, space.owner, space.phys.supply, space.pml4, base, frame, pages, i)
      invariant Placed(space.owner, frame, i)
    {
      MappableFrame(m, supply, owner, base, frame, pages, i);
      ok := MapKernelPage(space, m, base, frame, pages, i);
      if !ok {
        return;
      }
      i := i + 1;
    }
    ok := true;
  }

  lemma MappedNone(m: Memory, owner: Owner, supply: seq<nat>, pml4: nat, base: nat, frame: nat, pages: nat)
    requires Mappable(m, supply, owner, base, frame, pages)
    requires forall i :: 0 <= i < pages ==> WalkKernel(m, pml4, base, i) == None
    ensures Placed(owner, frame, 0)
    ensures MappedFirst(m, m, owner, supply, pml4, base, frame, pages, 0)
  {
    hide WalkKernel;
  }

  lemma NextKernelFrame(m: Memory, e: Memory, owner: Owner, supply: seq<nat>, pml4: nat, base: nat, frame: nat,
                        pages: nat, n: nat)
    requires MappedFirst(m, e, owner, supply, pml4, base, frame, pages, n) && n < pages
    ensures frame + n in m && frame + n in e && frame + n !in owner && frame + n !in supply
    ensures Translate(e, pml4, base + n * PAGE_SIZE) == None
  {
    hide WalkTable;
    assert WalkKernel(e, pml4, base, n) == None;
  }

  lemma MappableFrame(m: Memory, supply: seq<nat>, owner: Owner, base: nat, frame: nat, pages: nat, i: nat)
    requires Mappable(m, supply, owner, base, frame, pages) && i < pages
    ensures frame + i < TWO_40 && base % PAGE_SIZE == 0 && UPPER_HALF_START <= base
            && base + pages * PAGE_SIZE <= TWO_64
  {
    assert frame + i in m;
  }

  lemma KernelOwner(m: Memory, owner: Owner, pml4: nat, path: seq<nat>, frame: nat)
    requires Owned(m, owner, pml4, 256, 512) && FullPath(path, 256, 512)
    requires WalkTable(m, pml4, path).Some? && WalkTable(m, pml4, path).value.frame == frame
    ensures frame in owner && |owner[frame]| == 4
  {
    hide WalkTable, Owned;
    RootWalk(m, owner, pml4, 256, 512, path);
    WalkEndsAtOwner(m, owner, pml4, 256, 512, pml4, path);
  }

  /** Through the mapping, the address `x` bytes into the image reads the byte that lies `x` bytes into its frames. */
  lemma KernelReads(m: Memory, e: Memory, owner: Owner, supply: seq<nat>, pml4: nat, base: nat, at: nat, pages: nat,
                    x: nat)
    requires MappedFirst(m, e, owner, supply, pml4, base, at / PAGE_SIZE, pages, pages) && at % PAGE_SIZE == 0
    requires base % PAGE_SIZE == 0 && UPPER_HALF_START <= base && base + pages * PAGE_SIZE <= TWO_64
    requires x < pages * PAGE_SIZE
    ensures UserByte(e, pml4, base + x) == PhysByte(m, at + x)
  {
    hide WalkTable, PathOf, FrameByte;
    var i, frame := x / PAGE_SIZE, at / PAGE_SIZE;
    AddressInFrames(at, pages, x);
    KernelPage(base, i, pages);
    SameKernelPage(base, x);
    PathIdentifiesPage(base + x, base + i * PAGE_SIZE);
    assert WalkKernel(e, pml4, base, i) == Some(Word(3, frame + i, 0));
  }

  lemma SameKernelPage(base: nat, x: nat)
    requires base % PAGE_SIZE == 0
    ensures (base + x) % PAGE_SIZE == x % PAGE_SIZE
            && (base + x) / PAGE_SIZE == (base + x / PAGE_SIZE * PAGE_SIZE) / PAGE_SIZE
    ensures (base + x) / 0x1_0000_0000_0000 == (base + x / PAGE_SIZE * PAGE_SIZE) / 0x1_0000_0000_0000
  {
    var a, b := base + x, base + x / PAGE_SIZE * PAGE_SIZE;
    assert a / PAGE_SIZE == b / PAGE_SIZE;
    assert a / 0x1_0000_0000_0000 == a / PAGE_SIZE / 0x10_0000_0000;
    assert b / 0x1_0000_0000_0000 == b / PAGE_SIZE / 0x10_0000_0000;
  }

  /** The kernel is linked to the upper half. */
  ghost predicate UpperHalfKernel(image: seq<Byte>) {
    forall segs :: Loadable(image, segs) ==> UPPER_HALF_START <= LowestAddress(segs)
  }

  lemma ImageFits(image: seq<Byte>, segs: seq<ProgramHeader>, base: nat, size: nat)
    requires Loadable(image, segs) && base == LowestAddress(segs) && base + size == HighestEnd(segs)
    ensures base % PAGE_SIZE == 0 && base + PageCount(size) * PAGE_SIZE <= TWO_64
  {
    hide ParseHeader, Segments, LowestAddress, HighestEnd;
    BoundsEnclose(segs, image);
    assert segs[0].vaddr + segs[0].memSize <= HighestEnd(segs) < TWO_64;
    var e := base / PAGE_SIZE + PageCount(size);
    assert base == PAGE_SIZE * (base / PAGE_SIZE) && TWO_64 == PAGE_SIZE * (TWO_64 / PAGE_SIZE);
    assert PAGE_SIZE * e == base + PageCount(size) * PAGE_SIZE;
    assert e <= TWO_64 / PAGE_SIZE;
  }

  lemma GrantedBlock(m: Memory, taken: set<nat>, allocate: nat -> Option<nat>, n: nat)
    requires Grants(m, taken, allocate)
    ensures BlockOk(m, taken, n, allocate(n))
  {
    hide BlockOk;
    var at := allocate(n);
    assert BlockOk(m, taken, n, at);
  }

  /** The frames the firmware gave can be mapped. */
  lemma GrantedFrames(m: Memory, e: Memory, supply: seq<nat>, pml4: nat, allocate: nat -> Option<nat>,
                      base: nat, at: nat, pages: nat)
    requires Grants(m, {pml4} + Range(supply), allocate) && allocate(pages) == Some(at) && e.Keys == m.Keys
    requires base % PAGE_SIZE == 0 && UPPER_HALF_START <= base && base + pages * PAGE_SIZE <= TWO_64
    ensures at % PAGE_SIZE == 0 && Mappable(e, supply, map[pml4 := []], base, at / PAGE_SIZE, pages)
  {
    hide BlockOk, Grants, Mappable;
    GrantedBlock(m, {pml4} + Range(supply), allocate, pages);
    BlockMappable(m, e, supply, map[pml4 := []], {pml4} + Range(supply), base, at, pages);
  }

  lemma BlockMappable(m: Memory, e: Memory, supply: seq<nat>, owner: Owner, taken: set<nat>, base: nat, at: nat,
                      pages: nat)
    requires BlockOk(m, taken, pages, Some(at)) && e.Keys == m.Keys
    requires forall f :: f in owner || f in supply ==> f in taken
    requires base % PAGE_SIZE == 0 && UPPER_HALF_START <= base && base + pages * PAGE_SIZE <= TWO_64
    ensures at % PAGE_SIZE == 0 && Mappable(e, supply, owner, base, at / PAGE_SIZE, pages)
  {
    hide BlockOk;
    var frame := at / PAGE_SIZE;
    BlockFrame(m, taken, at, pages, frame);
    forall i | frame <= i < frame + pages ensures i in e && i < TWO_40 && i !in owner && i !in supply {
      BlockFrame(m, taken, at, pages, i);
    }
  }

  lemma BlockFrame(m: Memory, taken: set<nat>, at: nat, pages: nat, i: nat)
    requires BlockOk(m, taken, pages, Some(at))
    ensures at % PAGE_SIZE == 0
    ensures at / PAGE_SIZE <= i < at / PAGE_SIZE + pages ==> i in m && i < TWO_40 && i !in taken
  {}

  lemma FreshWalk(m: Memory, pml4: nat, base: nat, i: nat, pages: nat)
    requires Owned(m, map[pml4 := []], pml4, 256, 512) && i < pages
    requires base % PAGE_SIZE == 0 && UPPER_HALF_START <= base && base + pages * PAGE_SIZE <= TWO_64
    ensures WalkKernel(m, pml4, base, i) == None
  {
    hide PathOf;
    KernelPage(base, i, pages);
    var owner: Owner := map[pml4 := []];
    var j := PathOf(base + i * PAGE_SIZE)[0];
    if !Unused(m[pml4][j]) {
      UsedEntry(m, owner, pml4, 256, 512, pml4, j);
    }
  }

  /** Loading and mapping together: when both succeed, `virtual_base + x` reads, for every `x` below the image size, the
      file's byte of the last segment whose file part covers it, or zero. */
  method LoadAndMap(space: OffsetPageTable, image: seq<Byte>, allocate: nat -> Option<nat>)
    returns (r: Result<LoadedKernel, LoadError>, ok: bool, ghost segs: seq<ProgramHeader>)
    requires space.Valid() && space.lo == 256 && space.hi == 512 && space.owner == map[space.pml4 := []]
    requires Grants(space.phys.mem, {space.pml4} + Range(space.phys.supply), allocate) && UpperHalfKernel(image)
    modifies space`owner, space.phys
    ensures r.Ok? <==> exists s :: Loadable(image, s) && allocate(ImagePages(s)).Some?
    ensures r.Err? ==> r.error == Failure(image, allocate)
    ensures r.Ok? && !ok ==> space.phys.supply == []
    ensures r.Ok? && ok ==>
              && Loadable(image, segs) && r.value.virtualBase + r.value.imageSize == HighestEnd(segs)
              && forall x :: 0 <= x < r.value.imageSize ==>
                   UserByte(space.phys.mem, space.pml4, r.value.virtualBase + x) ==
                   Some(KernelByte(segs, image, r.value.virtualBase, x))
  {
    hide Owned, Tree, WalkTable, PathOf, Loadable, ImageAt, MappedFirst, KernelByte, Failure, LowestAddress,
         HighestEnd, UserByte, PageCount, ImagePages, Grants, Mappable;
    ok := false;
    ghost var taken := {space.pml4} + Range(space.phys.supply);
    ghost var m := space.phys.mem;
    r, segs := LoadKernel(space.phys, image, allocate, taken);
    if r.Err? {
      return;
    }
    var k := r.value;
    ghost var pages := PageCount(k.imageSize);
    ImageFits(image, segs, k.virtualBase, k.imageSize);
    GrantedFrames(m, space.phys.mem, space.phys.supply, space.pml4, allocate, k.virtualBase, k.physicalBase, pages);
    OwnersInMemory(m, space.owner, space.pml4, 256, 512);
    TreeElsewhere(m, space.phys.supply, space.owner, space.pml4, 256, 512, space.phys.mem);
    forall i | 0 <= i < pages ensures WalkKernel(space.phys.mem, space.pml4, k.virtualBase, i) == None {
      FreshWalk(space.phys.mem, space.pml4, k.virtualBase, i, pages);
    }
    ghost var e := space.phys.mem;
    ok := MapKernel(space, k);
    if ok {
      SegmentsFit(image, segs);
      forall x | 0 <= x < k.imageSize
        ensures UserByte(space.phys.mem, space.pml4, k.virtualBase + x)
                == Some(KernelByte(segs, image, k.virtualBase, x))
      {
        KernelReads(e, space.phys.mem, space.owner, space.phys.supply, space.pml4, k.virtualBase, k.physicalBase,
                    pages, x);
        ImageByteAt(e, k.physicalBase, pages * PAGE_SIZE, segs, image, k.virtualBase, x);
      }
    }
  }

  lemma SegmentsFit(image: seq<Byte>, segs: seq<ProgramHeader>)
    requires Loadable(image, segs)
    ensures forall k :: 0 <= k < |segs| ==> SegmentFits(image, segs[k])
  {}

  lemma ImageByteAt(m: Memory, at: nat, size: nat, segs: seq<ProgramHeader>, image: seq<Byte>, base: nat, x: nat)
    requires Loadable(image, segs) && ImageAt(m, at, size, segs, image, base) && x < size
    ensures (forall k :: 0 <= k < |segs| ==> SegmentFits(image, segs[k]))
            && PhysByte(m, at + x) == Some(KernelByte(segs, image, base, x))
  {
    hide PhysByte, KernelByte;
    assert ByteFrom(m, at, x) == Some(KernelByte(segs, image, base, x));
  }
}
