/** The boot memory map as the loader writes it, field by field, and what the kernel reads back
    (`shared/abi/src/boot.rs`). */
module BootMaps {
  import opened Words
  import opened Bytes
  import ElfFiles
  import opened Frames

  /** A descriptor with all its fields, and the bytes up to the next one. */
  datatype RawDescriptor = RawDescriptor(ty: nat, reserved: nat, physStart: nat, virtStart: nat, pageCount: nat,
                                         att: nat, padding: seq<Byte>)

  predicate DescriptorFits(r: RawDescriptor, stride: nat) {
    && r.ty < Pow256(4) && r.reserved < Pow256(4) && r.physStart < Pow256(8) && r.virtStart < Pow256(8)
    && r.pageCount < Pow256(8) && r.att < Pow256(8) && 40 + |r.padding| == stride
  }

  function FirstFields(r: RawDescriptor): (b: seq<Byte>)
    ensures |b| == 24
  {
    ToLittleEndian(r.ty, 4) + ToLittleEndian(r.reserved, 4) + ToLittleEndian(r.physStart, 8)
    + ToLittleEndian(r.virtStart, 8)
  }

  function LastFields(r: RawDescriptor): (b: seq<Byte>)
    ensures |b| == 16 + |r.padding|
  {
    ToLittleEndian(r.pageCount, 8) + ToLittleEndian(r.att, 8) + r.padding
  }

  /** The bytes of a whole map. */
  function Written(rs: seq<RawDescriptor>): seq<Byte> {
    if rs == [] then [] else DescriptorBytes(rs[0]) + Written(rs[1..])
  }

  lemma {:induction false} WrittenSize(rs: seq<RawDescriptor>, stride: nat)
    requires forall i :: 0 <= i < |rs| ==> DescriptorFits(rs[i], stride)
    ensures |Written(rs)| == |rs| * stride
  {
    hide DescriptorBytes, DescriptorFits;
    if rs != [] {
      FieldsRead(rs[0], stride);
      WrittenSize(rs[1..], stride);
      MulNext(|rs| - 1, stride);
    }
  }

  lemma MulNext(n: nat, d: nat)
    ensures (n + 1) * d == n * d + d
  {}

  /** The bytes `part` lie in `s` from `at` on. */
  ghost predicate LiesAt(s: seq<Byte>, at: int, part: seq<Byte>) {
    0 <= at && at + |part| <= |s| && s[at..at + |part|] == part
  }

  lemma LiesFurther(head: seq<Byte>, s: seq<Byte>, at: int, part: seq<Byte>)
    requires LiesAt(s, at, part)
    ensures LiesAt(head + s, |head| + at, part)
  {
    assert (head + s)[|head| + at..|head| + at + |part|] == s[at..at + |part|];
  }

  function DescriptorBytes(r: RawDescriptor): seq<Byte> {
    FirstFields(r) + LastFields(r)
  }

  /** Descriptor `i` is found `i` strides into the map. */
  lemma {:induction false} WrittenAt(rs: seq<RawDescriptor>, stride: nat, tail: seq<Byte>, i: nat)
    requires (forall j :: 0 <= j < |rs| ==> DescriptorFits(rs[j], stride)) && i < |rs|
    ensures LiesAt(Written(rs) + tail, i * stride, DescriptorBytes(rs[i]))
  {
    hide LiesAt, DescriptorBytes, DescriptorFits;
    var head, rest := DescriptorBytes(rs[0]), Written(rs[1..]) + tail;
    assert Written(rs) + tail == head + rest;
    if i > 0 {
      WrittenAt(rs[1..], stride, tail, i - 1);
      LiesFurther(head, rest, (i - 1) * stride, DescriptorBytes(rs[i]));
      FieldsRead(rs[0], stride);
      MulNext(i - 1, stride);
    } else {
      LiesFirst(head, rest);
    }
  }

  lemma LiesFirst(head: seq<Byte>, s: seq<Byte>)
    ensures LiesAt(head + s, 0, head)
  {}

  /** The type is at offset 0, the start at 8 and the page count at 24. */
  lemma FieldsRead(r: RawDescriptor, stride: nat)
    requires DescriptorFits(r, stride)
    ensures |DescriptorBytes(r)| == stride >= 40
    ensures var s := DescriptorBytes(r);
            Field(s, 0, 4) == r.ty && Field(s, 8, 8) == r.physStart && Field(s, 24, 8) == r.pageCount
  {
    hide LittleEndian, ToLittleEndian, Field, Pow256;
    var s := FirstFields(r) + LastFields(r);
    assert s == [] + FirstFields(r) + LastFields(r);
    ElfFiles.FourFields([], LastFields(r), [r.ty, r.reserved, r.physStart, r.virtStart], [4, 4, 8, 8]);
    var rest := ToLittleEndian(r.att, 8) + r.padding;
    assert s == FirstFields(r) + ToLittleEndian(r.pageCount, 8) + rest;
    ElfFiles.FieldHere(FirstFields(r), r.pageCount, 8, rest);
  }

  lemma CountIs(n: nat, stride: nat, extra: nat)
    requires extra < stride
    ensures (n * stride + extra) / stride == n
  {
    QuotientIs(n * stride + extra, stride, n);
  }

  lemma QuotientIs(x: nat, d: nat, q: nat)
    requires d > 0 && q * d <= x < q * d + d
    ensures x / d == q
  {
    var p := x / d;
    assert p * d <= x < p * d + d;
    if p < q {
      assert (p + 1) * d <= q * d by { MulUpTo(p + 1, q, d); }
    } else if q < p {
      assert (q + 1) * d <= p * d by { MulUpTo(q + 1, p, d); }
    }
  }

  lemma MulUpTo(a: nat, b: nat, d: nat)
    requires a <= b
    ensures a * d <= b * d
  {
    assert b * d == a * d + (b - a) * d;
  }

  /** The kernel reads back every descriptor as it was written, in order and no others, whatever the stride, the fields
      it does not use, and an incomplete descriptor at the end. */
  lemma MapRead(rs: seq<RawDescriptor>, stride: nat, tail: seq<Byte>)
    requires (forall i :: 0 <= i < |rs| ==> DescriptorFits(rs[i], stride)) && stride >= 40 && |tail| < stride
    ensures var ds := Descriptors(BootMemoryMap(false, Written(rs) + tail, stride));
            && |ds| == |rs|
            && forall i :: 0 <= i < |rs| ==> ds[i] == Descriptor(rs[i].ty, rs[i].physStart, rs[i].pageCount)
  {
    hide DescriptorBytes, DescriptorFits, Field, Written, Get;
    var raw := Written(rs) + tail;
    var bootMap := BootMemoryMap(false, raw, stride);
    WrittenSize(rs, stride);
    CountIs(|rs|, stride, |tail|);
    forall i | 0 <= i < |rs|
      ensures Get(bootMap, i) == Some(Descriptor(rs[i].ty, rs[i].physStart, rs[i].pageCount))
    {
      DescriptorRead(rs, stride, tail, i);
    }
  }

  lemma DescriptorRead(rs: seq<RawDescriptor>, stride: nat, tail: seq<Byte>, i: nat)
    requires (forall j :: 0 <= j < |rs| ==> DescriptorFits(rs[j], stride)) && i < |rs|
    requires EntryCount(BootMemoryMap(false, Written(rs) + tail, stride)) == |rs|
    ensures Get(BootMemoryMap(false, Written(rs) + tail, stride), i)
            == Some(Descriptor(rs[i].ty, rs[i].physStart, rs[i].pageCount))
  {
    hide DescriptorBytes, DescriptorFits, Field, Written, EntryCount;
    var raw, at := Written(rs) + tail, i * stride;
    WrittenAt(rs, stride, tail, i);
    FieldsRead(rs[i], stride);
    SubField(raw, at, at + stride, 0, 4);
    SubField(raw, at, at + stride, 8, 8);
    SubField(raw, at, at + stride, 24, 8);
  }

  /** A whole page frame of memory that the firmware says is free: conventional memory, or what boot services used. */
  predicate FreeFrame(r: RawDescriptor, a: nat) {
    (r.ty == 3 || r.ty == 4 || r.ty == 7) && r.physStart <= a && a + 4096 <= r.physStart + r.pageCount * 4096
  }

  lemma FrameInMap(rs: seq<RawDescriptor>, ds: seq<Descriptor>, x: nat)
    requires |ds| == |rs|
    requires forall i :: 0 <= i < |rs| ==> ds[i] == Descriptor(rs[i].ty, rs[i].physStart, rs[i].pageCount)
    ensures UsableFrame(ds, x)
            <==> x % 4096 == 0 && x >= 0x10_0000 && exists k :: 0 <= k < |rs| && FreeFrame(rs[k], x)
  {
    forall k | 0 <= k < |rs| ensures InDescriptor(ds[k], x) <==> FreeFrame(rs[k], x) {}
    if UsableFrame(ds, x) {
      var k :| 0 <= k < |ds| && InDescriptor(ds[k], x);
      assert FreeFrame(rs[k], x);
    }
    if k :| 0 <= k < |rs| && FreeFrame(rs[k], x) {
      assert InDescriptor(ds[k], x);
    }
  }

  /** From the bytes of the map to the frames handed out: a map that does not overlap itself and is in order gives every
      free frame above 1 MiB, in ascending order, and nothing else, and after them no frame ever again. */
  lemma BootFrames(rs: seq<RawDescriptor>, stride: nat, tail: seq<Byte>) returns (ds: seq<Descriptor>, n: nat)
    requires (forall i :: 0 <= i < |rs| ==> DescriptorFits(rs[i], stride)) && stride >= 40 && |tail| < stride
    requires var ds := Descriptors(BootMemoryMap(false, Written(rs) + tail, stride)); SoundMap(ds) && Ascending(ds)
    ensures ds == Descriptors(BootMemoryMap(false, Written(rs) + tail, stride))
    ensures forall x: nat :: x in Run(ds, LOW_MEMORY_CUTOFF, n) <==>
              x % 4096 == 0 && x >= 0x10_0000 && exists k :: 0 <= k < |rs| && FreeFrame(rs[k], x)
    ensures forall i, j :: 0 <= i < j < |Run(ds, LOW_MEMORY_CUTOFF, n)| ==>
              Run(ds, LOW_MEMORY_CUTOFF, n)[i] < Run(ds, LOW_MEMORY_CUTOFF, n)[j]
    ensures forall j: nat :: j >= n ==> Run(ds, LOW_MEMORY_CUTOFF, j) == Run(ds, LOW_MEMORY_CUTOFF, n)
  {
    hide SoundMap, Ascending, UsableFrame, Run, FreeFrame, Descriptors, Written, DescriptorFits;
    ds := Descriptors(BootMemoryMap(false, Written(rs) + tail, stride));
    MapRead(rs, stride, tail);
    n := AllUsableInOrder(ds);
    forall x: nat ensures x in Run(ds, LOW_MEMORY_CUTOFF, n) <==>
              x % 4096 == 0 && x >= 0x10_0000 && exists k :: 0 <= k < |rs| && FreeFrame(rs[k], x)
    {
      FrameInMap(rs, ds, x);
    }
  }

  // ---- One call, for any map ----

  /** Where a call looks in a descriptor: the first page boundary from the cursor and the start on, or, when rounding up
      would overflow, that very address. */
  ghost predicate Candidate(a: nat, next: nat, start: nat) {
    var from := if next >= start then next else start;
    if from + 4095 < 0x1_0000_0000_0000_0000 then a % 4096 == 0 && from <= a < from + 4096 else a == from
  }

  /** The descriptor is not usable memory, or ends before there is a frame in it from the cursor on. */
  ghost predicate Skipped(d: Descriptor, next: nat) {
    d.ty !in {3, 4, 7}
    || (d.start + d.pages * 4096 < 0x1_0000_0000_0000_0000
        && exists a: nat :: Candidate(a, next, d.start) && a >= d.start + d.pages * 4096)
  }

  lemma CandidateIs(next: nat, start: nat)
    ensures Candidate(AlignUp(Frames.Max(next, start)), next, start)
    ensures forall a: nat :: Candidate(a, next, start) ==> a == AlignUp(Frames.Max(next, start))
  {
    var b := AlignUp(Frames.Max(next, start));
    forall a: nat | Candidate(a, next, start) ensures a == b {
      if a % 4096 == 0 && b % 4096 == 0 {
        assert a == 4096 * (a / 4096) && b == 4096 * (b / 4096);
      }
    }
  }

  lemma SkippedIff(d: Descriptor, next: nat)
    ensures Skipped(d, next) <==> !Usable(d) || (Fits(d) && AlignUp(Frames.Max(next, d.start)) >= End(d))
  {
    hide AlignUp, Candidate;
    CandidateIs(next, d.start);
  }

  /** The first descriptor that is not skipped decides, in whatever order and shape the map is: a panic when its end is
      past 64 bits, nothing when the frame would end there, and else the frame. */
  lemma {:induction false} ScanFirst(ds: seq<Descriptor>, next: nat, i: nat, k: nat, a: nat)
    requires i <= k < |ds| && (forall j :: i <= j < k ==> Skipped(ds[j], next)) && !Skipped(ds[k], next)
    requires Candidate(a, next, ds[k].start)
    ensures Scan(ds, next, i)
            == if ds[k].start + ds[k].pages * 4096 >= 0x1_0000_0000_0000_0000 then Overflow
               else if a + 4096 >= 0x1_0000_0000_0000_0000 then Exhausted else Frame(a)
    decreases k - i
  {
    hide AlignUp, Candidate, Skipped;
    SkippedIff(ds[i], next);
    if i < k {
      assert Skipped(ds[i], next);
      ScanFirst(ds, next, i + 1, k, a);
    } else {
      CandidateIs(next, ds[k].start);
    }
  }

  lemma {:induction false} ScanNone(ds: seq<Descriptor>, next: nat, i: nat)
    requires i <= |ds| && forall j :: i <= j < |ds| ==> Skipped(ds[j], next)
    ensures Scan(ds, next, i) == Exhausted
    decreases |ds| - i
  {
    hide AlignUp, Skipped;
    if i < |ds| {
      SkippedIff(ds[i], next);
      ScanNone(ds, next, i + 1);
    }
  }
}
