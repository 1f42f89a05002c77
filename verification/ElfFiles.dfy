/** ELF64 files, written field by field in the order of the format's two structures, and what the
    kernel's parser makes of them. */
module ElfFiles {
  import opened Words
  import opened Bytes
  import opened KernelElf
  import Loader = LoaderElf

  /** The file header: `h` holds the fields the parser gives, the others are free. */
  datatype FileHeader = FileHeader(ident: seq<Byte>, elfType: nat, machine: nat, version: nat, h: Header,
                                   shoff: nat, flags: nat, ehsize: nat, sections: seq<Byte>)

  /** A program header of any type. */
  datatype Entry = Entry(kind: nat, ph: ProgramHeader)

  predicate HeaderFits(f: FileHeader) {
    && |f.ident| == 16 && f.elfType < Pow256(2) && f.machine < Pow256(2) && f.version < Pow256(4)
    && f.h.entry < Pow256(8) && f.h.phoff < Pow256(8) && f.shoff < Pow256(8) && f.flags < Pow256(4)
    && f.ehsize < Pow256(2) && f.h.phentsize < Pow256(2) && f.h.phnum < Pow256(2) && |f.sections| == 6
  }

  predicate EntryFits(e: Entry) {
    && e.kind < Pow256(4) && e.ph.flags < Pow256(4) && e.ph.fileOffset < Pow256(8) && e.ph.vaddr < Pow256(8)
    && e.ph.paddr < Pow256(8) && e.ph.fileSize < Pow256(8) && e.ph.memSize < Pow256(8) && e.ph.align < Pow256(8)
  }

  function HeaderStart(f: FileHeader): seq<Byte> {
    f.ident + ToLittleEndian(f.elfType, 2) + ToLittleEndian(f.machine, 2) + ToLittleEndian(f.version, 4)
  }

  function HeaderMiddle(f: FileHeader): seq<Byte> {
    ToLittleEndian(f.h.entry, 8) + ToLittleEndian(f.h.phoff, 8) + ToLittleEndian(f.shoff, 8)
    + ToLittleEndian(f.flags, 4)
  }

  function HeaderEnd(f: FileHeader): seq<Byte> {
    ToLittleEndian(f.ehsize, 2) + ToLittleEndian(f.h.phentsize, 2) + ToLittleEndian(f.h.phnum, 2) + f.sections
  }

  function EntryStart(e: Entry): seq<Byte> {
    ToLittleEndian(e.kind, 4) + ToLittleEndian(e.ph.flags, 4) + ToLittleEndian(e.ph.fileOffset, 8)
    + ToLittleEndian(e.ph.vaddr, 8)
  }

  function EntryEnd(e: Entry): seq<Byte> {
    ToLittleEndian(e.ph.paddr, 8) + ToLittleEndian(e.ph.fileSize, 8) + ToLittleEndian(e.ph.memSize, 8)
    + ToLittleEndian(e.ph.align, 8)
  }

  ghost predicate HeaderAt(data: seq<Byte>, f: FileHeader) {
    HeaderFits(f) && |data| >= 64 && data[..64] == HeaderStart(f) + HeaderMiddle(f) + HeaderEnd(f)
  }

  /** What the kernel supports: magic, class, byte order, type and machine, and whole program headers. */
  predicate Supported(f: FileHeader)
    requires |f.ident| == 16
  {
    && f.ident[..6] == [0x7F, 0x45, 0x4C, 0x46, 2, 1] && f.elfType in {2, 3} && f.machine == 62
    && 56 <= f.h.phentsize
  }

  ghost predicate EntryAt(data: seq<Byte>, h: Header, i: nat, e: Entry) {
    var start := h.phoff + i * h.phentsize;
    && EntryFits(e) && 56 <= h.phentsize && start + h.phentsize <= |data|
    && data[start..start + 56] == EntryStart(e) + EntryEnd(e)
  }

  /** The load segments among `entries`. */
  function LoadSegments(entries: seq<Entry>): seq<ProgramHeader> {
    if entries == [] then []
    else
      var n := |entries| - 1;
      LoadSegments(entries[..n]) + if entries[n].kind == 1 then [entries[n].ph] else []
  }

  ghost predicate SizesOk(entries: seq<Entry>) {
    forall i :: 0 <= i < |entries| && entries[i].kind == 1 ==> entries[i].ph.fileSize <= entries[i].ph.memSize
  }

  /** A number written at some place is the field there. */
  lemma FieldHere(a: seq<Byte>, v: nat, n: nat, b: seq<Byte>)
    requires v < Pow256(n)
    ensures Field(a + ToLittleEndian(v, n) + b, |a|, n) == v
  {
    LittleEndianRoundTrip(v, n);
    assert (a + ToLittleEndian(v, n) + b)[|a|..|a| + n] == ToLittleEndian(v, n);
  }

  /** Four numbers in a row. */
  lemma FourFields(a: seq<Byte>, b: seq<Byte>, v: seq<nat>, n: seq<nat>)
    requires |v| == |n| == 4 && forall k :: 0 <= k < 4 ==> v[k] < Pow256(n[k])
    ensures var s := a + (ToLittleEndian(v[0], n[0]) + ToLittleEndian(v[1], n[1]) + ToLittleEndian(v[2], n[2])
                          + ToLittleEndian(v[3], n[3])) + b;
            && Field(s, |a|, n[0]) == v[0]
            && Field(s, |a| + n[0], n[1]) == v[1]
            && Field(s, |a| + n[0] + n[1], n[2]) == v[2]
            && Field(s, |a| + n[0] + n[1] + n[2], n[3]) == v[3]
  {
    hide LittleEndian, ToLittleEndian, Field, Pow256;
    var x, y, z, w := ToLittleEndian(v[0], n[0]), ToLittleEndian(v[1], n[1]), ToLittleEndian(v[2], n[2]),
                      ToLittleEndian(v[3], n[3]);
    var s := a + (x + y + z + w) + b;
    assert s == a + x + (y + z + w + b);
    assert s == (a + x) + y + (z + w + b);
    assert s == (a + x + y) + z + (w + b);
    assert s == (a + x + y + z) + w + b;
    FieldHere(a, v[0], n[0], y + z + w + b);
    FieldHere(a + x, v[1], n[1], z + w + b);
    FieldHere(a + x + y, v[2], n[2], w + b);
    FieldHere(a + x + y + z, v[3], n[3], b);
  }

  /** The kernel's parser accepts a header exactly when it is supported, and then gives its fields. */
  lemma HeaderParsed(data: seq<Byte>, f: FileHeader)
    requires HeaderAt(data, f)
    ensures ParseHeader(data).Ok? <==> Supported(f)
    ensures Supported(f) ==> ParseHeader(data).value == f.h
  {
    hide LittleEndian, ToLittleEndian, Field, Pow256;
    HeaderFields(data, f);
    var head := [0x7F, 0x45, 0x4C, 0x46];
    assert data[0..4] == data[..64][0..4] == f.ident[0..4];
    assert data[4] == data[..64][4] == f.ident[4] && data[5] == data[..64][5] == f.ident[5];
    assert f.ident[..6] == f.ident[0..4] + [f.ident[4], f.ident[5]];
    assert head + [2, 1] == [0x7F, 0x45, 0x4C, 0x46, 2, 1];
  }

  /** Which error the kernel's parser gives: the first, in this order, of magic, class, byte order, type, machine and
      program header size to be wrong. */
  lemma HeaderRefused(data: seq<Byte>, f: FileHeader)
    requires HeaderAt(data, f)
    ensures var r := ParseHeader(data);
            var magic := f.ident[..4] == [0x7F, 0x45, 0x4C, 0x46];
            && (r == Err(BadMagic) <==> !magic)
            && (r == Err(UnsupportedClass) <==> magic && f.ident[4] != 2)
            && (r == Err(UnsupportedEndian) <==> magic && f.ident[4] == 2 && f.ident[5] != 1)
            && (magic && f.ident[4] == 2 && f.ident[5] == 1 ==>
                  && (r == Err(UnsupportedType) <==> f.elfType != 2 && f.elfType != 3)
                  && (r == Err(UnsupportedMachine) <==> (f.elfType == 2 || f.elfType == 3) && f.machine != 62)
                  && (r == Err(InvalidProgramHeaderSize) <==>
                      (f.elfType == 2 || f.elfType == 3) && f.machine == 62 && f.h.phentsize < 56))
  {
    hide LittleEndian, ToLittleEndian, Field, Pow256;
    HeaderFields(data, f);
    assert data[0..4] == data[..64][0..4] == f.ident[0..4] == f.ident[..4];
    assert data[4] == data[..64][4] == f.ident[4] && data[5] == data[..64][5] == f.ident[5];
  }

  /** The boot loader's parser checks the version too, and its errors carry the value it found. */
  lemma LoaderRefused(data: seq<Byte>, f: FileHeader)
    requires HeaderAt(data, f)
    ensures var r := Loader.ParseHeader(data);
            var magic := f.ident[..4] == [0x7F, 0x45, 0x4C, 0x46];
            && (r == Err(Loader.BadMagic) <==> !magic)
            && (r == Err(Loader.UnsupportedClass(f.ident[4])) <==> magic && f.ident[4] != 2)
            && (r == Err(Loader.UnsupportedEndian(f.ident[5])) <==> magic && f.ident[4] == 2 && f.ident[5] != 1)
            && (r == Err(Loader.UnsupportedVersion(f.ident[6])) <==>
                magic && f.ident[4] == 2 && f.ident[5] == 1 && f.ident[6] != 1)
            && (magic && f.ident[4] == 2 && f.ident[5] == 1 && f.ident[6] == 1 ==>
                  && (r == Err(Loader.UnsupportedType(f.elfType)) <==> f.elfType != 2 && f.elfType != 3)
                  && (r == Err(Loader.UnsupportedMachine(f.machine)) <==>
                      (f.elfType == 2 || f.elfType == 3) && f.machine != 62)
                  && (r == Err(Loader.InvalidProgramHeaderSize(f.h.phentsize)) <==>
                      (f.elfType == 2 || f.elfType == 3) && f.machine == 62 && f.h.phentsize < 56))
  {
    hide LittleEndian, ToLittleEndian, Field, Pow256;
    HeaderFields(data, f);
    assert data[0..4] == data[..64][0..4] == f.ident[0..4] == f.ident[..4];
    assert data[4] == data[..64][4] == f.ident[4] && data[5] == data[..64][5] == f.ident[5];
    assert data[6] == data[..64][6] == f.ident[6];
  }

  lemma HeaderFields(data: seq<Byte>, f: FileHeader)
    requires HeaderAt(data, f)
    ensures Field(data, 16, 2) == f.elfType && Field(data, 18, 2) == f.machine && Field(data, 24, 8) == f.h.entry
    ensures Field(data, 32, 8) == f.h.phoff && Field(data, 54, 2) == f.h.phentsize
    ensures Field(data, 56, 2) == f.h.phnum
  {
    hide LittleEndian, ToLittleEndian, Field, Pow256;
    var s := data[..64];
    assert s == data[0..64];
    StartFields(f, HeaderMiddle(f) + HeaderEnd(f));
    assert s == HeaderStart(f) + (HeaderMiddle(f) + HeaderEnd(f));
    FourFields(HeaderStart(f), HeaderEnd(f), [f.h.entry, f.h.phoff, f.shoff, f.flags], [8, 8, 8, 4]);
    EndFields(f, HeaderStart(f) + HeaderMiddle(f));
    SubField(data, 0, 64, 16, 2);
    SubField(data, 0, 64, 18, 2);
    SubField(data, 0, 64, 24, 8);
    SubField(data, 0, 64, 32, 8);
    SubField(data, 0, 64, 54, 2);
    SubField(data, 0, 64, 56, 2);
  }

  lemma StartFields(f: FileHeader, rest: seq<Byte>)
    requires HeaderFits(f)
    ensures Field(HeaderStart(f) + rest, 16, 2) == f.elfType && Field(HeaderStart(f) + rest, 18, 2) == f.machine
  {
    hide LittleEndian, ToLittleEndian, Field, Pow256;
    var t, m, v := ToLittleEndian(f.elfType, 2), ToLittleEndian(f.machine, 2), ToLittleEndian(f.version, 4);
    var s := HeaderStart(f) + rest;
    assert s == f.ident + t + (m + v + rest);
    assert s == (f.ident + t) + m + (v + rest);
    FieldHere(f.ident, f.elfType, 2, m + v + rest);
    FieldHere(f.ident + t, f.machine, 2, v + rest);
  }

  lemma EndFields(f: FileHeader, before: seq<Byte>)
    requires HeaderFits(f)
    ensures Field(before + HeaderEnd(f), |before| + 2, 2) == f.h.phentsize
    ensures Field(before + HeaderEnd(f), |before| + 4, 2) == f.h.phnum
  {
    hide LittleEndian, ToLittleEndian, Field, Pow256;
    var e, p, n := ToLittleEndian(f.ehsize, 2), ToLittleEndian(f.h.phentsize, 2), ToLittleEndian(f.h.phnum, 2);
    var s := before + HeaderEnd(f);
    assert s == (before + e) + p + (n + f.sections);
    assert s == (before + e + p) + n + f.sections;
    FieldHere(before + e, f.h.phentsize, 2, n + f.sections);
    FieldHere(before + e + p, f.h.phnum, 2, f.sections);
  }

  /** One program header comes back as written, unless its sizes are the wrong way round. */
  lemma EntryParsed(data: seq<Byte>, h: Header, i: nat, e: Entry)
    requires |data| < TWO_64 && EntryAt(data, h, i, e)
    ensures ParseProgramHeader(data, h, i)
            == if e.kind != 1 then Ok(None)
               else if e.ph.fileSize <= e.ph.memSize then Ok(Some(e.ph)) else Err(ProgramHeaderOutOfBounds)
  {
    hide LittleEndian, ToLittleEndian, Field, Pow256;
    var start := h.phoff + i * h.phentsize;
    var s := data[start..start + 56];
    FourFields([], EntryEnd(e), [e.kind, e.ph.flags, e.ph.fileOffset, e.ph.vaddr], [4, 4, 8, 8]);
    assert s == [] + EntryStart(e) + EntryEnd(e);
    FourFields(EntryStart(e), [], [e.ph.paddr, e.ph.fileSize, e.ph.memSize, e.ph.align], [8, 8, 8, 8]);
    assert s == EntryStart(e) + EntryEnd(e) + [];
    SubField(data, start, start + 56, 0, 4);
    SubField(data, start, start + 56, 4, 4);
    SubField(data, start, start + 56, 8, 8);
    SubField(data, start, start + 56, 16, 8);
    SubField(data, start, start + 56, 24, 8);
    SubField(data, start, start + 56, 32, 8);
    SubField(data, start, start + 56, 40, 8);
    SubField(data, start, start + 56, 48, 8);
  }

  /** A program header that reaches past the file, or past the address space, is refused. */
  lemma EntryOutside(data: seq<Byte>, h: Header, i: nat)
    requires |data| < TWO_64 && 56 <= h.phentsize && h.phoff + i * h.phentsize + h.phentsize > |data|
    ensures ParseProgramHeader(data, h, i) == Err(ProgramHeaderOutOfBounds)
  {}

  /** The load segments of a file come back as written, in order, for any number of program headers
      of any type, exactly when none is larger in the file than in memory. */
  lemma {:induction false} SegmentsParsed(data: seq<Byte>, h: Header, entries: seq<Entry>)
    requires |data| < TWO_64 && 56 <= h.phentsize
    requires forall i :: 0 <= i < |entries| ==> EntryAt(data, h, i, entries[i])
    ensures Segments(data, h, |entries|)
            == if SizesOk(entries) then Ok(LoadSegments(entries)) else Err(ProgramHeaderOutOfBounds)
  {
    hide EntryAt, ParseProgramHeader;
    if entries != [] {
      var n := |entries| - 1;
      SegmentsParsed(data, h, entries[..n]);
      EntryParsed(data, h, n, entries[n]);
      var front, last := entries[..n], entries[n];
      assert LoadSegments(front) + [] == LoadSegments(front);
      assert SizesOk(entries) <==> SizesOk(front) && (last.kind == 1 ==> last.ph.fileSize <= last.ph.memSize) by {
        if SizesOk(entries) {
          assert forall i :: 0 <= i < n ==> front[i] == entries[i];
        } else if SizesOk(front) {
          assert forall i :: 0 <= i < n ==> entries[i] == front[i];
        }
      }
    }
  }

  lemma {:induction false} LittleEndianInverse(b: seq<Byte>)
    ensures ToLittleEndian(LittleEndian(b), |b|) == b
  {
    if b != [] {
      LittleEndianInverse(b[1..]);
      assert LittleEndian(b) % 256 == b[0] && LittleEndian(b) / 256 == LittleEndian(b[1..]);
    }
  }

  lemma FieldInverse(data: seq<Byte>, offset: nat, size: nat)
    requires offset + size <= |data|
    ensures ToLittleEndian(Field(data, offset, size), size) == data[offset..offset + size]
  {
    LittleEndianInverse(data[offset..offset + size]);
  }

  /** The header read off the first 64 bytes of any file. */
  function HeaderOf(data: seq<Byte>): FileHeader
    requires |data| >= 64
  {
    FileHeader(data[..16], Field(data, 16, 2), Field(data, 18, 2), Field(data, 20, 4),
               Header(Field(data, 24, 8), Field(data, 32, 8), Field(data, 54, 2), Field(data, 56, 2)),
               Field(data, 40, 8), Field(data, 48, 4), Field(data, 52, 2), data[58..64])
  }

  /** Every file of 64 bytes or more starts with a header, so that `HeaderParsed` speaks of them all. */
  lemma EveryHeader(data: seq<Byte>)
    requires |data| >= 64
    ensures HeaderAt(data, HeaderOf(data))
  {
    hide LittleEndian, ToLittleEndian, Field, Pow256;
    var f := HeaderOf(data);
    FieldInverse(data, 16, 2);
    FieldInverse(data, 18, 2);
    FieldInverse(data, 20, 4);
    assert HeaderStart(f) == data[..24];
    FieldInverse(data, 24, 8);
    FieldInverse(data, 32, 8);
    FieldInverse(data, 40, 8);
    FieldInverse(data, 48, 4);
    assert HeaderMiddle(f) == data[24..52];
    FieldInverse(data, 52, 2);
    FieldInverse(data, 54, 2);
    FieldInverse(data, 56, 2);
    assert HeaderEnd(f) == data[52..64];
    assert data[..64] == data[..24] + data[24..52] + data[52..64];
  }

  /** For every byte string: the kernel accepts its header exactly when it has 64 bytes or more and
      they are a supported header; the fields it gives are the ones written there. */
  lemma AcceptedIffSupported(data: seq<Byte>)
    ensures ParseHeader(data).Ok? <==> |data| >= 64 && exists f :: HeaderAt(data, f) && Supported(f)
    ensures ParseHeader(data).Ok? ==> forall f :: HeaderAt(data, f) ==> ParseHeader(data).value == f.h
  {
    hide ParseHeader, HeaderStart, HeaderMiddle, HeaderEnd, Pow256, Supported;
    forall f | HeaderAt(data, f)
      ensures ParseHeader(data).Ok? <==> Supported(f)
      ensures Supported(f) ==> ParseHeader(data).value == f.h
    {
      HeaderParsed(data, f);
    }
    if |data| >= 64 {
      EveryHeader(data);
      HeaderParsed(data, HeaderOf(data));
    }
  }
}
