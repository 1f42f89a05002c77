/** Little-endian fields of a byte image. */
module Bytes {
  import opened Words

  datatype Result<+T, +E> = Ok(value: T) | Err(error: E)

  /** `from_le_bytes`. */
  function LittleEndian(b: seq<Byte>): (n: nat)
    ensures n < Pow256(|b|)
  {
    if b == [] then 0 else b[0] + 256 * LittleEndian(b[1..])
  }

  /** `to_le_bytes` for `n` bytes. */
  function ToLittleEndian(v: nat, n: nat): (b: seq<Byte>)
    ensures |b| == n
    decreases n
  {
    if n == 0 then [] else [v % 256] + ToLittleEndian(v / 256, n - 1)
  }

  lemma {:induction false} LittleEndianRoundTrip(v: nat, n: nat)
    requires v < Pow256(n)
    ensures LittleEndian(ToLittleEndian(v, n)) == v
    decreases n
  {
    if n > 0 {
      LittleEndianRoundTrip(v / 256, n - 1);
      assert ToLittleEndian(v, n)[1..] == ToLittleEndian(v / 256, n - 1);
    }
  }

  function Field(data: seq<Byte>, offset: nat, size: nat): (n: nat)
    requires offset + size <= |data|
    ensures n < Pow256(size)
  {
    LittleEndian(data[offset..offset + size])
  }

  lemma SubField(image: seq<Byte>, start: nat, end: nat, offset: nat, size: nat)
    requires start <= end <= |image| && offset + size <= end - start
    ensures Field(image[start..end], offset, size) == Field(image, start + offset, size)
  {
    var ph := image[start..end];
    var part, whole := ph[offset..offset + size], image[start + offset..start + offset + size];
    forall j | 0 <= j < size ensures part[j] == whole[j] {
      assert part[j] == ph[offset + j] == image[start + (offset + j)] == whole[j];
    }
    assert part == whole;
  }
}

/** The kernel's ELF parser (`kernel/src/elf.rs`). */
module KernelElf {
  import opened Words
  import opened Bytes

  datatype Header = Header(entry: nat, phoff: nat, phentsize: nat, phnum: nat)

  datatype ProgramHeader = ProgramHeader(fileOffset: nat, vaddr: nat, paddr: nat, fileSize: nat, memSize: nat,
                                         flags: nat, align: nat)

  datatype ParseError =
    | FileTooSmall | BadMagic | UnsupportedClass | UnsupportedEndian | UnsupportedType | UnsupportedMachine
    | InvalidProgramHeaderSize | ProgramHeaderOutOfBounds

  const PF_X: nat := 0
  const PF_W: nat := 1

  function ParseHeader(data: seq<Byte>): (r: Result<Header, ParseError>)
    ensures r.Ok? ==> |data| >= 64 && 56 <= r.value.phentsize < 0x1_0000 && r.value.phnum < 0x1_0000
  {
    if |data| < 64 then Err(FileTooSmall)
    else if data[0..4] != [0x7F, 0x45, 0x4C, 0x46] then Err(BadMagic)
    else if data[4] != 2 then Err(UnsupportedClass)
    else if data[5] != 1 then Err(UnsupportedEndian)
    else if Field(data, 16, 2) != 2 && Field(data, 16, 2) != 3 then Err(UnsupportedType)
    else if Field(data, 18, 2) != 62 then Err(UnsupportedMachine)
    else if Field(data, 54, 2) < 56 then Err(InvalidProgramHeaderSize)
    else
      assert Pow256(2) == 0x1_0000;
      Ok(Header(Field(data, 24, 8), Field(data, 32, 8), Field(data, 54, 2), Field(data, 56, 2)))
  }

  /** The load segment described by program header `index`, if that header is PT_LOAD. */
  function ParseProgramHeader(data: seq<Byte>, h: Header, index: nat): (r: Result<Option<ProgramHeader>, ParseError>)
    requires 56 <= h.phentsize
    ensures r.Ok? && r.value.Some? ==> r.value.value.fileSize <= r.value.value.memSize
  {
    var start := h.phoff + index * h.phentsize;
    var end := start + h.phentsize;
    if index * h.phentsize >= TWO_64 || end >= TWO_64 then Err(ProgramHeaderOutOfBounds)
    else if start >= |data| || end > |data| then Err(ProgramHeaderOutOfBounds)
    else if Field(data, start, 4) != 1 then Ok(None)
    else
      var ph := ProgramHeader(Field(data, start + 8, 8), Field(data, start + 16, 8), Field(data, start + 24, 8),
                              Field(data, start + 32, 8), Field(data, start + 40, 8), Field(data, start + 4, 4),
                              Field(data, start + 48, 8));
      if ph.fileSize > ph.memSize then Err(ProgramHeaderOutOfBounds) else Ok(Some(ph))
  }

  /** The load segments of the first `n` program headers, in order, or the first error. */
  function Segments(data: seq<Byte>, h: Header, n: nat): Result<seq<ProgramHeader>, ParseError>
    requires 56 <= h.phentsize
  {
    if n == 0 then Ok([])
    else
      var before := Segments(data, h, n - 1);
      if before.Err? then before
      else match ParseProgramHeader(data, h, n - 1)
        case Err(e) => Err(e)
        case Ok(None) => before
        case Ok(Some(ph)) => Ok(before.value + [ph])
  }
}

/** The boot loader's ELF parser (`boot/uefi-loader/src/elf.rs`), and its agreement with the kernel's. */
module LoaderElf {
  import opened Words
  import opened Bytes
  import Kernel = KernelElf

  datatype Header = Header(entry: nat, phoff: nat, phentsize: nat, phnum: nat)

  datatype ProgramHeader = ProgramHeader(fileOffset: nat, vaddr: nat, paddr: nat, fileSize: nat, memSize: nat)

  datatype LoadError =
    | FileTooSmall | BadMagic | UnsupportedClass(c: Byte) | UnsupportedEndian(e: Byte) | UnsupportedVersion(v: Byte)
    | UnsupportedType(t: nat) | UnsupportedMachine(m: nat) | InvalidProgramHeaderSize(s: nat)
    | ProgramHeaderOutOfBounds | SegmentOutOfBounds | SegmentAlignment(a: nat) | SegmentAddressOverflow
    | NoLoadSegments | AllocationFailed

  /** `read_u16`, `read_u32`, `read_u64`: a field, or an error when it reaches past the slice. */
  function Read(data: seq<Byte>, offset: nat, size: nat): (r: Result<nat, LoadError>)
    ensures r.Ok? <==> offset + size < TWO_64 && offset + size <= |data|
    ensures r.Ok? ==> r.value == Field(data, offset, size)
  {
    if offset + size >= TWO_64 || offset + size > |data| then Err(ProgramHeaderOutOfBounds)
    else Ok(Field(data, offset, size))
  }

  function ParseHeader(image: seq<Byte>): (r: Result<Header, LoadError>)
    ensures r.Ok? ==> |image| >= 64 && 56 <= r.value.phentsize < 0x1_0000 && r.value.phnum < 0x1_0000
  {
    if |image| < 64 then Err(FileTooSmall)
    else if image[0..4] != [0x7F, 0x45, 0x4C, 0x46] then Err(BadMagic)
    else if image[4] != 2 then Err(UnsupportedClass(image[4]))
    else if image[5] != 1 then Err(UnsupportedEndian(image[5]))
    else if image[6] != 1 then Err(UnsupportedVersion(image[6]))
    else
      assert Pow256(2) == 0x1_0000;
      var elfType := Read(image, 16, 2);
      var machine := Read(image, 18, 2);
      var entrySize := Read(image, 54, 2);
      var entry := Read(image, 24, 8);
      var phoff := Read(image, 32, 8);
      var phnum := Read(image, 56, 2);
      if elfType.Err? then Err(elfType.error)
      else if elfType.value != 2 && elfType.value != 3 then Err(UnsupportedType(elfType.value))
      else if machine.Err? then Err(machine.error)
      else if machine.value != 62 then Err(UnsupportedMachine(machine.value))
      else if entrySize.Err? then Err(entrySize.error)
      else if entrySize.value < 56 then Err(InvalidProgramHeaderSize(entrySize.value))
      else if entry.Err? then Err(entry.error)
      else if phoff.Err? then Err(phoff.error)
      else if phnum.Err? then Err(phnum.error)
      else Ok(Header(entry.value, phoff.value, entrySize.value, phnum.value))
  }

  function ParseProgramHeader(image: seq<Byte>, h: Header, index: nat): (r: Result<Option<ProgramHeader>, LoadError>)
    requires 56 <= h.phentsize
    ensures r.Ok? && r.value.Some? ==> var ph := r.value.value; ph.fileSize <= ph.memSize && ph.vaddr % 0x1000 == 0
  {
    var start := h.phoff + index * h.phentsize;
    var end := start + h.phentsize;
    if index * h.phentsize >= TWO_64 || end >= TWO_64 then Err(ProgramHeaderOutOfBounds)
    else if end > |image| then Err(ProgramHeaderOutOfBounds)
    else
      var ph := image[start..end];
      var kind := Read(ph, 0, 4);
      if kind.Err? then Err(kind.error)
      else if kind.value != 1 then Ok(None)
      else
        var vaddr := Read(ph, 16, 8);
        var paddr := Read(ph, 24, 8);
        var fileSize := Read(ph, 32, 8);
        var memSize := Read(ph, 40, 8);
        var fileOffset := Read(ph, 8, 8);
        if vaddr.Err? then Err(vaddr.error)
        else if paddr.Err? then Err(paddr.error)
        else if vaddr.value % 0x1000 != 0 then Err(SegmentAlignment(vaddr.value))
        else if fileSize.Err? then Err(fileSize.error)
        else if memSize.Err? then Err(memSize.error)
        else if memSize.value < fileSize.value then Err(SegmentOutOfBounds)
        else if fileOffset.Err? then Err(fileOffset.error)
        else Ok(Some(ProgramHeader(fileOffset.value, vaddr.value, paddr.value, fileSize.value, memSize.value)))
  }

  function Segments(image: seq<Byte>, h: Header, n: nat): Result<seq<ProgramHeader>, LoadError>
    requires 56 <= h.phentsize
  {
    if n == 0 then Ok([])
    else
      var before := Segments(image, h, n - 1);
      if before.Err? then before
      else match ParseProgramHeader(image, h, n - 1)
        case Err(e) => Err(e)
        case Ok(None) => before
        case Ok(Some(ph)) => Ok(before.value + [ph])
  }

  // ---- Agreement ----

  predicate SameHeader(h: Header, k: Kernel.Header) {
    h.entry == k.entry && h.phoff == k.phoff && h.phentsize == k.phentsize && h.phnum == k.phnum
  }

  predicate SameSegment(s: ProgramHeader, k: Kernel.ProgramHeader) {
    s.fileOffset == k.fileOffset && s.vaddr == k.vaddr && s.paddr == k.paddr && s.fileSize == k.fileSize
      && s.memSize == k.memSize
  }

  /** The loader accepts exactly the headers the kernel accepts whose version byte is 1. */
  lemma HeadersAgree(image: seq<Byte>)
    ensures ParseHeader(image).Ok? <==> Kernel.ParseHeader(image).Ok? && image[6] == 1
    ensures ParseHeader(image).Ok? ==> SameHeader(ParseHeader(image).value, Kernel.ParseHeader(image).value)
  {
    hide LittleEndian;
  }

  /** The loader accepts exactly the program headers the kernel accepts whose segment, if they
      describe one, starts on a page boundary; and it reads the same segment. */
  lemma ProgramHeadersAgree(image: seq<Byte>, h: Header, k: Kernel.Header, index: nat)
    requires SameHeader(h, k) && 56 <= h.phentsize
    ensures var r, q := ParseProgramHeader(image, h, index), Kernel.ParseProgramHeader(image, k, index);
            && (r.Ok? <==> q.Ok? && (q.value.Some? ==> q.value.value.vaddr % 0x1000 == 0))
            && (r.Ok? ==> (r.value.Some? <==> q.value.Some?))
            && (r.Ok? && r.value.Some? ==> SameSegment(r.value.value, q.value.value))
  {
    hide LittleEndian;
    var start := h.phoff + index * h.phentsize;
    var end := start + h.phentsize;
    if end < TWO_64 && end <= |image| {
      SubField(image, start, end, 0, 4);
      SubField(image, start, end, 8, 8);
      SubField(image, start, end, 16, 8);
      SubField(image, start, end, 24, 8);
      SubField(image, start, end, 32, 8);
      SubField(image, start, end, 40, 8);
    }
  }

  ghost predicate AllPageAligned(segs: seq<Kernel.ProgramHeader>) {
    forall i :: 0 <= i < |segs| ==> segs[i].vaddr % 0x1000 == 0
  }

  /** Image by image: the loader's parser accepts all `n` program headers exactly when the kernel's
      does and every segment is page aligned, and then both read the same list of segments. */
  lemma {:induction false} SegmentsAgree(image: seq<Byte>, h: Header, k: Kernel.Header, n: nat)
    requires SameHeader(h, k) && 56 <= h.phentsize
    ensures var r, q := Segments(image, h, n), Kernel.Segments(image, k, n);
            && (r.Ok? <==> q.Ok? && AllPageAligned(q.value))
            && (r.Ok? ==>
                  |r.value| == |q.value|
                  && forall i :: 0 <= i < |r.value| ==> SameSegment(r.value[i], q.value[i]))
  {
    hide ParseProgramHeader, Kernel.ParseProgramHeader, SameSegment;
    if n > 0 {
      SegmentsAgree(image, h, k, n - 1);
      ProgramHeadersAgree(image, h, k, n - 1);
      var q := Kernel.Segments(image, k, n);
      if q.Ok? && Kernel.ParseProgramHeader(image, k, n - 1).value.Some? {
        assert q.value[|q.value| - 1] == Kernel.ParseProgramHeader(image, k, n - 1).value.value;
        assert q.value[..|q.value| - 1] == Kernel.Segments(image, k, n - 1).value;
      }
    }
  }

  /** The loader's parser accepts a whole image. */
  predicate Accepts(image: seq<Byte>) {
    ParseHeader(image).Ok? && Segments(image, ParseHeader(image).value, ParseHeader(image).value.phnum).Ok?
  }

  predicate KernelAccepts(image: seq<Byte>) {
    Kernel.ParseHeader(image).Ok? && Kernel.Segments(image, Kernel.ParseHeader(image).value,
                                                     Kernel.ParseHeader(image).value.phnum).Ok?
  }

  /** For every byte string: the loader accepts it exactly when the kernel does, its version byte is 1
      and every load segment starts on a page boundary; and then both give the same entry point and
      the same segments. */
  lemma ImagesAgree(image: seq<Byte>)
    ensures Accepts(image) <==>
            && KernelAccepts(image) && image[6] == 1
            && var k := Kernel.ParseHeader(image).value; AllPageAligned(Kernel.Segments(image, k, k.phnum).value)
    ensures Accepts(image) ==>
              var h, k := ParseHeader(image).value, Kernel.ParseHeader(image).value;
              var r, q := Segments(image, h, h.phnum).value, Kernel.Segments(image, k, k.phnum).value;
              h.entry == k.entry && |r| == |q| && forall i :: 0 <= i < |r| ==> SameSegment(r[i], q[i])
  {
    hide ParseHeader, Kernel.ParseHeader, Segments, Kernel.Segments, AllPageAligned;
    HeadersAgree(image);
    if ParseHeader(image).Ok? {
      var h, k := ParseHeader(image).value, Kernel.ParseHeader(image).value;
      SegmentsAgree(image, h, k, h.phnum);
    }
  }
}
