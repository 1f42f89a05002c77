/** The boot ramdisk: the packer of the build tool (`tools/xtask`) and the parser of the kernel
    (`kernel/src/vfs.rs`). */
module Ramdisk {
  import opened Words
  import opened Bytes

  datatype File = File(name: seq<Byte>, data: seq<Byte>)

  const NAME_SIZE: nat := 64
  const HEADER_SIZE: nat := 72

  // ---- Text ----

  predicate Continuation(b: Byte) {
    0x80 <= b < 0xC0
  }

  /** The length of the well-formed UTF-8 character `b` starts with, or zero (section 3.9 of the
      Unicode Standard, table 3-7). */
  function CharLength(b: seq<Byte>): (n: nat)
    ensures n <= |b|
  {
    if |b| >= 1 && b[0] < 0x80 then 1
    else if |b| >= 2 && 0xC2 <= b[0] < 0xE0 && Continuation(b[1]) then 2
    else if |b| >= 3 && Continuation(b[1]) && Continuation(b[2]) &&
            ((b[0] == 0xE0 && b[1] >= 0xA0) || 0xE1 <= b[0] <= 0xEC || (b[0] == 0xED && b[1] < 0xA0)
             || 0xEE <= b[0] <= 0xEF) then 3
    else if |b| >= 4 && Continuation(b[1]) && Continuation(b[2]) && Continuation(b[3]) &&
            ((b[0] == 0xF0 && b[1] >= 0x90) || 0xF1 <= b[0] <= 0xF3 || (b[0] == 0xF4 && b[1] < 0x90)) then 4
    else 0
  }

  /** `core::str::from_utf8` succeeds. */
  predicate ValidUtf8(b: seq<Byte>)
    decreases |b|
  {
    b == [] || (CharLength(b) > 0 && ValidUtf8(b[CharLength(b)..]))
  }

  const UNKNOWN: seq<Byte> := [0x75, 0x6E, 0x6B, 0x6E, 0x6F, 0x77, 0x6E]

  // ---- Packing ----

  function Zeros(n: nat): (z: seq<Byte>)
    ensures |z| == n && forall i :: 0 <= i < n ==> z[i] == 0
  {
    seq(n, _ => 0)
  }

  function Clip(name: seq<Byte>): (c: seq<Byte>)
    ensures |c| <= 63
  {
    if |name| <= 63 then name else name[..63]
  }

  /** The bytes `add_file` appends. */
  function PackFile(f: File): seq<Byte> {
    Clip(f.name) + Zeros(NAME_SIZE - |Clip(f.name)|) + ToLittleEndian(|f.data|, 8) + f.data
  }

  function PackAll(files: seq<File>): seq<Byte> {
    if files == [] then [] else PackFile(files[0]) + PackAll(files[1..])
  }

  /** The bytes of one file, place by place: the first 63 bytes of the name, zeros up to 64, eight bytes of length, the
      data. */
  lemma PackLayout(f: File)
    requires |f.data| < TWO_64
    ensures |PackFile(f)| == 72 + |f.data|
    ensures forall i :: 0 <= i < 64 ==> PackFile(f)[i] == if i < |f.name| && i < 63 then f.name[i] else 0
    ensures LittleEndian(PackFile(f)[64..72]) == |f.data| && PackFile(f)[72..] == f.data
  {
    hide ToLittleEndian, LittleEndian;
    var size := ToLittleEndian(|f.data|, 8);
    assert PackFile(f)[64..72] == size && PackFile(f)[72..] == f.data;
    assert |f.data| < Pow256(8) by { Pow256Of8(); }
    LittleEndianRoundTrip(|f.data|, 8);
  }

  lemma NameField(name: seq<Byte>, header: seq<Byte>)
    requires |header| == NAME_SIZE
    requires forall j :: 0 <= j < NAME_SIZE ==> header[j] == if j < |Clip(name)| then name[j] else 0
    ensures header == Clip(name) + Zeros(NAME_SIZE - |Clip(name)|)
  {}

  lemma Joined(a: seq<Byte>, b: seq<Byte>, c: seq<Byte>, d: seq<Byte>)
    ensures a + b + c + d == a + (b + c + d)
  {}

  class RamdiskBuilder {
    var image: seq<Byte>

    constructor ()
      ensures image == PackAll([])
    {
      image := [];
    }

    /** The `add_file` closure: a 64-byte name field filled in place, the length, the data. */
    method AddFile(name: seq<Byte>, data: seq<Byte>, ghost files: seq<File>)
      requires image == PackAll(files)
      modifies this
      ensures image == PackAll(files + [File(name, data)])
    {
      hide PackAll, ToLittleEndian;
      var header := new Byte[64](_ => 0);
      var nameLen := if |name| <= 63 then |name| else 63;
      var i := 0;
      while i < nameLen
        invariant i <= nameLen && image == old(image)
        invariant forall j :: 0 <= j < 64 ==> header[j] == if j < i then name[j] else 0
      {
        header[i] := name[i];
        i := i + 1;
      }
      NameField(name, header[..]);
      image := image + header[..] + ToLittleEndian(|data|, 8) + data;
      PackOneMore(files, File(name, data));
      Joined(old(image), header[..], ToLittleEndian(|data|, 8), data);
    }
  }

  lemma {:induction false} PackOneMore(files: seq<File>, f: File)
    ensures PackAll(files + [f]) == PackAll(files) + PackFile(f)
  {
    hide PackFile;
    if files == [] {
      assert [f][1..] == [];
      assert PackAll([f]) == PackFile(f) + [];
    } else {
      PackOneMore(files[1..], f);
      assert (files + [f])[1..] == files[1..] + [f];
    }
  }

  // ---- Parsing ----

  /** The position of the first zero byte, or the length. */
  function NameLength(b: seq<Byte>): (n: nat)
    ensures n <= |b| && (forall i :: 0 <= i < n ==> b[i] != 0) && (n < |b| ==> b[n] == 0)
  {
    if b == [] || b[0] == 0 then 0 else 1 + NameLength(b[1..])
  }

  function FieldName(field: seq<Byte>): seq<Byte> {
    var name := field[..NameLength(field)];
    if ValidUtf8(name) then name else UNKNOWN
  }

  /** What the kernel reads; `overflow` is the panic on a length that takes the offset past 64 bits. */
  datatype Parsed = Parsed(files: seq<File>, overflow: bool)

  function Parse(data: seq<Byte>, offset: nat): (r: Parsed)
    requires offset <= |data|
    decreases |data| - offset
  {
    if offset + HEADER_SIZE > |data| then Parsed([], false)
    else
      var name := FieldName(data[offset..offset + NAME_SIZE]);
      var size := LittleEndian(data[offset + NAME_SIZE..offset + HEADER_SIZE]);
      var start := offset + HEADER_SIZE;
      if start + size >= TWO_64 then Parsed([], true)
      else if start + size > |data| then Parsed([], false)
      else
        var rest := Parse(data, start + size);
        Parsed([File(name, data[start..start + size])] + rest.files, rest.overflow)
  }

  /** With `files` read up to `offset`, the rest of the image gives the rest of the result. */
  ghost predicate Continues(data: seq<Byte>, files: seq<File>, offset: nat)
    requires offset <= |data|
  {
    Parse(data, 0) == Parsed(files + Parse(data, offset).files, Parse(data, offset).overflow)
  }

  lemma ParseOne(data: seq<Byte>, offset: nat, size: nat)
    requires offset + HEADER_SIZE <= |data| && size == LittleEndian(data[offset + NAME_SIZE..offset + HEADER_SIZE])
    ensures var start, r := offset + HEADER_SIZE, Parse(data, offset);
            if start + size >= TWO_64 then r == Parsed([], true)
            else if start + size > |data| then r == Parsed([], false)
            else
              var f := File(FieldName(data[offset..offset + NAME_SIZE]), data[start..start + size]);
              r == Parsed([f] + Parse(data, start + size).files, Parse(data, start + size).overflow)
  {
    hide LittleEndian, FieldName;
  }

  lemma ContinuesStart(data: seq<Byte>)
    ensures Continues(data, [], 0)
  {}

  lemma ParseShort(data: seq<Byte>, offset: nat)
    requires offset <= |data| < offset + HEADER_SIZE
    ensures Parse(data, offset) == Parsed([], false)
  {}

  lemma ContinuesStop(data: seq<Byte>, files: seq<File>, offset: nat, overflow: bool)
    requires offset <= |data| && Continues(data, files, offset) && Parse(data, offset) == Parsed([], overflow)
    ensures Parse(data, 0) == Parsed(files, overflow)
  {
    hide Parse;
    assert files + [] == files;
  }

  lemma ContinuesStep(data: seq<Byte>, files: seq<File>, offset: nat, f: File, next: nat)
    requires offset <= |data| && next <= |data| && Continues(data, files, offset)
    requires Parse(data, offset) == Parsed([f] + Parse(data, next).files, Parse(data, next).overflow)
    ensures Continues(data, files + [f], next)
  {
    hide Parse;
    MoveOver(files, f, Parse(data, next).files);
  }

  lemma MoveOver(files: seq<File>, f: File, rest: seq<File>)
    ensures files + ([f] + rest) == files + [f] + rest
  {}

  /** The `while` loop of `init_from_ramdisk`. */
  method ParseRamdisk(data: seq<Byte>) returns (files: seq<File>, overflow: bool)
    ensures Parsed(files, overflow) == Parse(data, 0)
  {
    hide Parse, Continues, LittleEndian, FieldName;
    files, overflow := [], false;
    var offset := 0;
    ContinuesStart(data);
    while offset + HEADER_SIZE <= |data|
      invariant offset <= |data| && !overflow && Continues(data, files, offset)
      decreases |data| - offset
    {
      var name := FieldName(data[offset..offset + NAME_SIZE]);
      var size := LittleEndian(data[offset + NAME_SIZE..offset + HEADER_SIZE]);
      ParseOne(data, offset, size);
      var start := offset + HEADER_SIZE;
      if start + size >= TWO_64 {
        ContinuesStop(data, files, offset, true);
        return files, true;
      }
      if start + size > |data| {
        ContinuesStop(data, files, offset, false);
        return files, false;
      }
      var f := File(name, data[start..start + size]);
      ContinuesStep(data, files, offset, f, start + size);
      files := files + [f];
      offset := start + size;
    }
    ParseShort(data, offset);
    ContinuesStop(data, files, offset, false);
  }

  // ---- Round trip ----

  /** How a name comes back. */
  function StoredName(name: seq<Byte>): seq<Byte> {
    FieldName(Clip(name) + Zeros(NAME_SIZE - |Clip(name)|))
  }

  function Stored(f: File): File {
    File(StoredName(f.name), f.data)
  }

  function StoredAll(files: seq<File>): (r: seq<File>)
    ensures |r| == |files| && forall i :: 0 <= i < |files| ==> r[i] == Stored(files[i])
  {
    seq(|files|, i requires 0 <= i < |files| => Stored(files[i]))
  }

  lemma SliceOf(data: seq<Byte>, offset: nat, a: nat, b: nat)
    requires offset <= |data| && a <= b <= |data| - offset
    ensures data[offset..][a..b] == data[offset + a..offset + b]
    ensures data[offset..][a..] == data[offset + a..]
  {}

  /** The fields of a packed file, found again at any offset. */
  lemma PackedFields(data: seq<Byte>, offset: nat, f: File, rest: seq<Byte>)
    requires offset <= |data| && data[offset..] == PackFile(f) + rest && |f.data| < TWO_64
    ensures offset + HEADER_SIZE + |f.data| <= |data|
    ensures FieldName(data[offset..offset + NAME_SIZE]) == StoredName(f.name)
    ensures LittleEndian(data[offset + NAME_SIZE..offset + HEADER_SIZE]) == |f.data|
    ensures data[offset + HEADER_SIZE..offset + HEADER_SIZE + |f.data|] == f.data
    ensures data[offset + HEADER_SIZE + |f.data|..] == rest
  {
    hide LittleEndian, FieldName, ToLittleEndian;
    var field := Clip(f.name) + Zeros(NAME_SIZE - |Clip(f.name)|);
    var len := ToLittleEndian(|f.data|, 8);
    var tail := data[offset..];
    var end := HEADER_SIZE + |f.data|;
    assert tail == field + (len + (f.data + rest));
    assert tail[..NAME_SIZE] == field && tail[NAME_SIZE..HEADER_SIZE] == len;
    assert tail[HEADER_SIZE..end] == f.data && tail[end..] == rest;
    SliceOf(data, offset, 0, NAME_SIZE);
    SliceOf(data, offset, NAME_SIZE, HEADER_SIZE);
    SliceOf(data, offset, HEADER_SIZE, end);
    SliceOf(data, offset, end, |tail|);
    Pow256Of8();
    LittleEndianRoundTrip(|f.data|, 8);
  }

  lemma PackedLength(f: File)
    ensures |PackFile(f)| == HEADER_SIZE + |f.data|
  {}

  /** The length field survives a cut behind it. */
  lemma CutHeader(data: seq<Byte>, offset: nat, f: File, m: nat)
    requires offset <= |data| && HEADER_SIZE <= m <= |PackFile(f)| && data[offset..] == PackFile(f)[..m]
             && |f.data| < TWO_64
    ensures |data| == offset + m && LittleEndian(data[offset + NAME_SIZE..offset + HEADER_SIZE]) == |f.data|
  {
    hide LittleEndian, ToLittleEndian;
    var field := Clip(f.name) + Zeros(NAME_SIZE - |Clip(f.name)|);
    var len := ToLittleEndian(|f.data|, 8);
    assert PackFile(f) == field + (len + f.data);
    assert data[offset + NAME_SIZE..offset + HEADER_SIZE] == data[offset..][NAME_SIZE..HEADER_SIZE];
    assert data[offset..][NAME_SIZE..HEADER_SIZE] == PackFile(f)[NAME_SIZE..HEADER_SIZE] == len;
    Pow256Of8();
    LittleEndianRoundTrip(|f.data|, 8);
  }

  /** The number of files that lie whole in the first `n` bytes. */
  function WholeFiles(files: seq<File>, n: nat): (k: nat)
    ensures k <= |files|
  {
    if files == [] || |PackFile(files[0])| > n then 0
    else 1 + WholeFiles(files[1..], n - |PackFile(files[0])|)
  }

  lemma {:induction false} AllWhole(files: seq<File>)
    ensures WholeFiles(files, |PackAll(files)|) == |files|
  {
    hide PackFile;
    if files != [] {
      AllWhole(files[1..]);
    }
  }

  /** The first file is whole: it is read, and the parse goes on after it. */
  lemma {:induction false} WholeFirst(data: seq<Byte>, offset: nat, files: seq<File>, m: nat)
    requires files != [] && |PackFile(files[0])| <= m <= |PackAll(files)| && offset <= |data|
    requires data[offset..] == PackAll(files)[..m] && offset + |PackAll(files)| < TWO_64
    ensures var f, rest := files[0], files[1..];
            var next := offset + HEADER_SIZE + |f.data|;
            && |PackFile(f)| == HEADER_SIZE + |f.data| && next <= |data|
            && m - |PackFile(f)| <= |PackAll(rest)| && next + |PackAll(rest)| < TWO_64
            && data[next..] == PackAll(rest)[..m - |PackFile(f)|]
            && Parse(data, offset) == Parsed([Stored(f)] + Parse(data, next).files, Parse(data, next).overflow)
  {
    hide PackFile, LittleEndian, FieldName, StoredName;
    var f, rest := files[0], files[1..];
    PackedLength(f);
    var cut := PackAll(rest)[..m - |PackFile(f)|];
    assert PackAll(files)[..m] == PackFile(f) + cut;
    PackedFields(data, offset, f, cut);
  }

  lemma NothingLeft(data: seq<Byte>, offset: nat, m: nat)
    requires offset <= |data| && m <= |PackAll([])| && data[offset..] == PackAll([])[..m]
    ensures Parse(data, offset) == Parsed([], false)
  {
    assert |data[offset..]| == 0;
  }

  /** The first file is not whole: the parse ends. */
  lemma {:induction false} CutFirst(data: seq<Byte>, offset: nat, files: seq<File>, m: nat)
    requires files != [] && m < |PackFile(files[0])| && offset <= |data|
    requires m <= |PackAll(files)| && data[offset..] == PackAll(files)[..m] && offset + |PackAll(files)| < TWO_64
    ensures Parse(data, offset) == Parsed([], false)
  {
    hide PackFile, LittleEndian, FieldName, StoredName;
    var f := files[0];
    PackedLength(f);
    assert PackAll(files)[..m] == PackFile(f)[..m];
    if m >= HEADER_SIZE {
      CutHeader(data, offset, f, m);
    }
  }

  /** Parsing from an offset where the first `m` bytes of a packed list lie gives the files that are
      whole, and only those. */
  lemma {:induction false} ParseCut(data: seq<Byte>, offset: nat, files: seq<File>, m: nat)
    requires offset <= |data| && m <= |PackAll(files)| && data[offset..] == PackAll(files)[..m]
    requires offset + |PackAll(files)| < TWO_64
    ensures Parse(data, offset) == Parsed(StoredAll(files[..WholeFiles(files, m)]), false)
    decreases |files|
  {
    hide PackFile, LittleEndian, FieldName, StoredName, Parse, PackAll;
    if files == [] {
      NothingLeft(data, offset, m);
    } else {
      var f, rest := files[0], files[1..];
      if |PackFile(f)| <= m {
        WholeFirst(data, offset, files, m);
        var k := WholeFiles(rest, m - |PackFile(f)|);
        ParseCut(data, offset + HEADER_SIZE + |f.data|, rest, m - |PackFile(f)|);
        assert files[..k + 1][0] == f && files[..k + 1][1..] == rest[..k];
      } else {
        CutFirst(data, offset, files, m);
      }
    }
  }

  /** Parsing any truncation of a packed image yields a prefix of the list: the files that are whole. */
  lemma ParseTruncated(files: seq<File>, n: nat)
    requires n <= |PackAll(files)| < TWO_64
    ensures Parse(PackAll(files)[..n], 0) == Parsed(StoredAll(files[..WholeFiles(files, n)]), false)
  {
    hide Parse, StoredAll, WholeFiles;
    var data := PackAll(files)[..n];
    assert data[0..] == data;
    ParseCut(data, 0, files, n);
  }

  /** A name the image keeps as it is. */
  predicate KeepsName(name: seq<Byte>) {
    |name| <= 63 && forall i :: 0 <= i < |name| ==> name[i] != 0
  }

  lemma NameLengthPadded(name: seq<Byte>, n: nat)
    requires n > 0 && forall i :: 0 <= i < |name| ==> name[i] != 0
    ensures NameLength(name + Zeros(n)) == |name| && (name + Zeros(n))[..|name|] == name
  {
    var b := name + Zeros(n);
    assert b[|name|] == 0 && forall i :: 0 <= i < |name| ==> b[i] == name[i];
  }

  /** For text names: a name comes back as it was exactly when it has at most 63 bytes and no NUL. */
  lemma NameRoundTrip(name: seq<Byte>)
    requires ValidUtf8(name)
    ensures StoredName(name) == name <==> KeepsName(name)
  {
    hide ValidUtf8;
    var field := Clip(name) + Zeros(NAME_SIZE - |Clip(name)|);
    if KeepsName(name) {
      NameLengthPadded(name, NAME_SIZE - |name|);
    } else if |name| > 63 {
      assert |StoredName(name)| <= NAME_SIZE;
      LongName(name);
    } else {
      var i :| 0 <= i < |name| && name[i] == 0;
      assert field[i] == 0;
      assert NameLength(field) <= i;
      assert |UNKNOWN| == 7 && forall j :: 0 <= j < 7 ==> UNKNOWN[j] != 0;
      if |UNKNOWN| == |name| {
        assert UNKNOWN[i] != name[i];
      }
    }
  }

  /** The text name "a", NUL, "b" comes back as "a". */
  lemma NulNameCut()
    ensures var name: seq<Byte> := [0x61, 0, 0x62]; ValidUtf8(name) && StoredName(name) == [0x61] != name
  {
    var name: seq<Byte> := [0x61, 0, 0x62];
    assert name[1..] == [0, 0x62] && name[2..] == [0x62] && ValidUtf8([0x62]) && ValidUtf8([0x61]);
    assert ValidUtf8([0, 0x62]) by { assert [0, 0x62][1..] == [0x62]; }
    var field := Clip(name) + Zeros(NAME_SIZE - |Clip(name)|);
    assert field[0] == 0x61 && field[1] == 0;
    assert NameLength(field) == 1;
    assert field[..1] == [0x61];
  }

  lemma LongName(name: seq<Byte>)
    requires |name| > 63
    ensures |StoredName(name)| <= 63
  {
    var field := Clip(name) + Zeros(NAME_SIZE - |Clip(name)|);
    assert field[63] == 0;
    assert NameLength(field) <= 63;
  }

  /** Round trip: for every list of text-named files, parsing the packed image gives exactly that list if and only if
      every name has at most 63 bytes and no NUL. */
  lemma RoundTrip(files: seq<File>)
    requires |PackAll(files)| < TWO_64 && forall i :: 0 <= i < |files| ==> ValidUtf8(files[i].name)
    ensures Parse(PackAll(files), 0) == Parsed(files, false)
            <==> forall i :: 0 <= i < |files| ==> KeepsName(files[i].name)
  {
    hide Parse, PackAll, WholeFiles, ValidUtf8, KeepsName, StoredName;
    ParseTruncated(files, |PackAll(files)|);
    AllWhole(files);
    assert PackAll(files)[..|PackAll(files)|] == PackAll(files) && files[..|files|] == files;
    forall i | 0 <= i < |files| ensures StoredAll(files)[i] == files[i] <==> KeepsName(files[i].name) {
      NameRoundTrip(files[i].name);
    }
    if forall i :: 0 <= i < |files| ==> KeepsName(files[i].name) {
      assert StoredAll(files) == files;
    } else {
      var i :| 0 <= i < |files| && !KeepsName(files[i].name);
      assert StoredAll(files)[i] != files[i];
    }
  }
}
