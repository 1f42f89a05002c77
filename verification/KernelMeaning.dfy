/** What the loaded kernel image is, address by address, and which error an image gives that cannot be loaded, said
    without the functions the loader is proved against (`boot/uefi-loader`). */
module KernelMeaning {
  import opened Words
  import opened Bytes
  import opened LoaderElf
  import opened KernelImage

  predicate InFilePart(s: ProgramHeader, va: nat) {
    s.vaddr <= va < s.vaddr + s.fileSize
  }

  /** The last segment whose file part covers an address gives its byte. */
  lemma {:induction false} ByteOfLastCover(segs: seq<ProgramHeader>, image: seq<Byte>, base: nat, x: nat, k: nat)
    requires forall j :: 0 <= j < |segs| ==> SegmentFits(image, segs[j])
    requires k < |segs| && InFilePart(segs[k], base + x)
    requires forall j :: k < j < |segs| ==> !InFilePart(segs[j], base + x)
    ensures segs[k].fileOffset + (base + x - segs[k].vaddr) < |image|
    ensures KernelByte(segs, image, base, x) == image[segs[k].fileOffset + (base + x - segs[k].vaddr)]
  {
    assert SegmentFits(image, segs[k]);
    if k < |segs| - 1 {
      ByteOfLastCover(segs[..|segs| - 1], image, base, x, k);
    }
  }

  /** Where no file part reaches there is a zero: the rest of a segment's memory, and the gaps between segments. */
  lemma {:induction false} ByteOutside(segs: seq<ProgramHeader>, image: seq<Byte>, base: nat, x: nat)
    requires forall j :: 0 <= j < |segs| ==> SegmentFits(image, segs[j])
    requires forall j :: 0 <= j < |segs| ==> !InFilePart(segs[j], base + x)
    ensures KernelByte(segs, image, base, x) == 0
  {
    if segs != [] {
      ByteOutside(segs[..|segs| - 1], image, base, x);
    }
  }

  lemma {:induction false} LowestAttained(segs: seq<ProgramHeader>)
    requires segs != [] && forall k :: 0 <= k < |segs| ==> segs[k].vaddr < 0x1_0000_0000_0000_0000
    ensures exists k :: 0 <= k < |segs| && segs[k].vaddr == LowestAddress(segs)
    ensures forall k :: 0 <= k < |segs| ==> LowestAddress(segs) <= segs[k].vaddr
  {
    var n := |segs| - 1;
    var front := segs[..n];
    if front == [] {
      assert LowestAddress(front) == TWO_64 - 1 && segs[0].vaddr == LowestAddress(segs);
    } else {
      LowestAttained(front);
      var i :| 0 <= i < n && front[i].vaddr == LowestAddress(front);
      assert segs[if LowestAddress(front) <= segs[n].vaddr then i else n].vaddr == LowestAddress(segs);
    }
  }

  function EndOf(s: ProgramHeader): nat {
    s.vaddr + s.memSize
  }

  lemma {:induction false} HighestAttained(segs: seq<ProgramHeader>)
    requires segs != []
    ensures exists k :: 0 <= k < |segs| && EndOf(segs[k]) == HighestEnd(segs)
    ensures forall k :: 0 <= k < |segs| ==> EndOf(segs[k]) <= HighestEnd(segs)
  {
    var n := |segs| - 1;
    var front := segs[..n];
    if front == [] {
      assert HighestEnd(front) == 0 && EndOf(segs[0]) == HighestEnd(segs);
    } else {
      HighestAttained(front);
      var j :| 0 <= j < n && EndOf(front[j]) == HighestEnd(front);
      assert EndOf(segs[if HighestEnd(front) >= EndOf(segs[n]) then j else n]) == HighestEnd(segs);
    }
  }

  /** The image goes from the least segment start to the greatest segment end. */
  lemma BoundsAttained(segs: seq<ProgramHeader>)
    requires segs != [] && forall k :: 0 <= k < |segs| ==> segs[k].vaddr < 0x1_0000_0000_0000_0000
    ensures (exists k :: 0 <= k < |segs| && segs[k].vaddr == LowestAddress(segs))
            && forall k :: 0 <= k < |segs| ==> LowestAddress(segs) <= segs[k].vaddr
    ensures (exists k :: 0 <= k < |segs| && EndOf(segs[k]) == HighestEnd(segs))
            && forall k :: 0 <= k < |segs| ==> EndOf(segs[k]) <= HighestEnd(segs)
    ensures LowestAddress(segs) <= HighestEnd(segs)
  {
    hide LowestAddress, HighestEnd;
    LowestAttained(segs);
    HighestAttained(segs);
    assert LowestAddress(segs) <= segs[0].vaddr <= EndOf(segs[0]) <= HighestEnd(segs);
  }

  // ---- Errors ----

  /** Program header `i` is refused, or describes a segment that wraps around. */
  predicate BadHeader(image: seq<Byte>, h: Header, i: nat)
    requires 56 <= h.phentsize
  {
    var r := ParseProgramHeader(image, h, i);
    r.Err? || (r.value.Some? && r.value.value.vaddr + r.value.value.memSize >= 0x1_0000_0000_0000_0000)
  }

  ghost predicate FirstBad(image: seq<Byte>, h: Header, n: nat, i: nat)
    requires 56 <= h.phentsize
  {
    i < n && BadHeader(image, h, i) && forall j :: 0 <= j < i ==> !BadHeader(image, h, j)
  }

  lemma {:induction false} FirstBadError(image: seq<Byte>, h: Header, n: nat, i: nat)
    requires 56 <= h.phentsize && FirstBad(image, h, n, i)
    ensures var r := ParseProgramHeader(image, h, i);
            FirstPassError(image, h, n) == Some(if r.Err? then r.error else SegmentAddressOverflow)
  {
    hide ParseProgramHeader;
    if i < n - 1 {
      FirstBadError(image, h, n - 1, i);
    } else {
      NoneBad(image, h, i);
    }
  }

  lemma {:induction false} NoneBad(image: seq<Byte>, h: Header, n: nat)
    requires 56 <= h.phentsize && forall j :: 0 <= j < n ==> !BadHeader(image, h, j)
    ensures FirstPassError(image, h, n) == None && Segments(image, h, n).Ok?
    ensures forall k :: 0 <= k < |Segments(image, h, n).value| ==>
              var s := Segments(image, h, n).value[k];
              s.vaddr % 0x1000 == 0 && s.fileSize <= s.memSize && s.vaddr + s.memSize < 0x1_0000_0000_0000_0000
  {
    hide ParseProgramHeader;
    if n > 0 {
      NoneBad(image, h, n - 1);
      assert !BadHeader(image, h, n - 1);
    }
  }

  /** Which error an image gives, when it cannot be loaded: the header's own; that of the first bad program header;
      then, in this order, that there is no load segment, that there are no pages, and that a file part lies outside
      the file. No other error is possible. */
  lemma FailureIs(image: seq<Byte>, allocate: nat -> Option<nat>)
    ensures ParseHeader(image).Err? ==> Failure(image, allocate) == ParseHeader(image).error
    ensures ParseHeader(image).Ok? ==>
              var h := ParseHeader(image).value;
              && (forall i :: FirstBad(image, h, h.phnum, i) ==>
                    var r := ParseProgramHeader(image, h, i);
                    Failure(image, allocate) == if r.Err? then r.error else SegmentAddressOverflow)
              && ((forall j :: 0 <= j < h.phnum ==> !BadHeader(image, h, j)) ==>
                    var segs := Segments(image, h, h.phnum);
                    && segs.Ok?
                    && Failure(image, allocate)
                       == if segs.value == [] then NoLoadSegments
                          else if allocate(PageCount(HighestEnd(segs.value) - LowestAddress(segs.value))).None?
                          then AllocationFailed else SegmentOutOfBounds)
  {
    hide ParseHeader, ParseProgramHeader, Segments, FirstPassError, LowestAddress, HighestEnd, PageCount, FirstBad;
    if ParseHeader(image).Ok? {
      var h := ParseHeader(image).value;
      forall i | FirstBad(image, h, h.phnum, i)
        ensures var r := ParseProgramHeader(image, h, i);
                Failure(image, allocate) == if r.Err? then r.error else SegmentAddressOverflow
      {
        FirstBadError(image, h, h.phnum, i);
      }
      if forall j :: 0 <= j < h.phnum ==> !BadHeader(image, h, j) {
        NoneBad(image, h, h.phnum);
        var segs := Segments(image, h, h.phnum).value;
        if segs != [] {
          BoundsAttained(segs);
        }
      }
    }
  }
}
