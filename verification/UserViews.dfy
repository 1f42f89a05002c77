/** What a program finds in its address space after it is loaded, said without the functions that load it
    (`kernel/src/process.rs`). */
module UserViews {
  import opened Words
  import opened PageTables
  import opened CloneTables
  import opened AddressSpaces
  import opened UserMemory
  import opened KernelElf
  import opened LoadModel
  import opened ProcessLoading

  /** Some byte of `start..start + size` lies on the page of `va`. */
  ghost predicate SharesPage(start: nat, size: nat, va: nat) {
    exists x :: start <= x < start + size && InPage(x, va)
  }

  predicate InPage(x: nat, va: nat) {
    x / 4096 == va / 4096
  }

  ghost predicate OnStackPage(va: nat) {
    SharesPage(0x7000_0000_0000, 0x8000, va)
  }

  lemma SharesPageIff(start: nat, size: nat, va: nat)
    ensures SharesPage(start, size, va) <==> size > 0 && start / 4096 <= va / 4096 <= (start + size - 1) / 4096
  {
    if size > 0 && start / 4096 <= va / 4096 <= (start + size - 1) / 4096 {
      var x := if start / 4096 == va / 4096 then start else va / 4096 * 4096;
      assert start <= x < start + size && InPage(x, va);
    }
  }

  /** The leaf entry of a page of segment `k`, when no earlier segment shares that page. */
  predicate ProtectedAs(w: Word, ph: ProgramHeader) {
    && Bit(w.lo, PRESENT) && Bit(w.lo, USER)
    && (Bit(w.lo, WRITABLE) <==> ph.flags / 2 % 2 == 1)
    && (Bit(w.hi, NO_EXECUTE_HI) <==> ph.flags % 2 == 0)
  }

  /** What an address means to the program: it is mapped exactly when it shares a page with the stack or a segment;
      stack pages are writable, pages off the stack are protected as the first segment on them says; and where a
      segment covers the address the last one to do so gives its byte, from the file or zero. */
  ghost predicate UserView(m: Memory, pml4: nat, data: seq<Byte>, segs: seq<ProgramHeader>, va: nat)
    requires forall k :: 0 <= k < |segs| && segs[k].memSize > 0 ==> segs[k].fileOffset + segs[k].fileSize <= |data|
  {
    var t := Translate(m, pml4, va);
    && (t.Some? <==> OnStackPage(va) || exists k :: 0 <= k < |segs| && SharesPage(segs[k].vaddr, segs[k].memSize, va))
    && (OnStackPage(va) ==> t.Some? && t.value.lo == 7 && t.value.hi == 0)
    && (forall k :: 0 <= k < |segs| && SharesPage(segs[k].vaddr, segs[k].memSize, va) && !OnStackPage(va)
          && (forall j :: 0 <= j < k ==> !SharesPage(segs[j].vaddr, segs[j].memSize, va))
          ==> t.Some? && ProtectedAs(t.value, segs[k]))
    && (forall k :: 0 <= k < |segs| && segs[k].vaddr <= va < segs[k].vaddr + segs[k].memSize
          && (forall j :: k < j < |segs| ==> !(segs[j].vaddr <= va < segs[j].vaddr + segs[j].memSize))
          ==> UserByte(m, pml4, va)
              == Some(if va < segs[k].vaddr + segs[k].fileSize then data[segs[k].fileOffset + va - segs[k].vaddr]
                      else 0))
  }

  lemma ProtectedBySegment(w: Word, ph: ProgramHeader)
    requires w.lo == 5 + 2 * (ph.flags / 2 % 2) && w.hi == 0x800 * (1 - ph.flags % 2)
    ensures ProtectedAs(w, ph)
  {}

  lemma FlagsPresent(segs: seq<ProgramHeader>, page: nat)
    ensures PageFlags(segs, page).Some?
            <==> StackPage(page) || exists k :: 0 <= k < |segs| && TouchesPage(segs[k], page)
  {
    if !StackPage(page) {
      if k :| 0 <= k < |segs| && TouchesPage(segs[k], page) {
        TouchedMapped(segs, k, page);
      } else {
        UntouchedPage(segs, page);
      }
    }
  }

  lemma {:induction false} TouchedMapped(segs: seq<ProgramHeader>, k: nat, page: nat)
    requires k < |segs| && TouchesPage(segs[k], page)
    ensures PageFlags(segs, page).Some?
  {
    if k < |segs| - 1 {
      TouchedMapped(segs[..|segs| - 1], k, page);
    }
  }

  lemma HeldView(m: Memory, pml4: nat, data: seq<Byte>, segs: seq<ProgramHeader>, va: nat)
    requires forall k :: 0 <= k < |segs| ==> Loadable(data, segs[k])
    requires HoldsImage(m, pml4, segs, data) && va < LOWER_HALF_END
    ensures UserView(m, pml4, data, segs, va)
  {
    hide Translate, UserByte, SharesPage, PageFlags, ImageByte, ProtectedAs;
    var page, t := va / PAGE_SIZE, Translate(m, pml4, va);
    SharesPageIff(0x7000_0000_0000, 0x8000, va);
    forall k | 0 <= k < |segs|
      ensures SharesPage(segs[k].vaddr, segs[k].memSize, va) <==> TouchesPage(segs[k], page)
    {
      SharesPageIff(segs[k].vaddr, segs[k].memSize, va);
    }
    FlagsPresent(segs, page);
    forall k | 0 <= k < |segs| && TouchesPage(segs[k], page) && !StackPage(page)
      && (forall j :: 0 <= j < k ==> !TouchesPage(segs[j], page))
      ensures t.Some? && ProtectedAs(t.value, segs[k])
    {
      FlagsOfFirstTouch(segs, k, page);
      ProtectedBySegment(t.value, segs[k]);
    }
    forall k | 0 <= k < |segs| && segs[k].vaddr <= va < segs[k].vaddr + segs[k].memSize
      && (forall j :: k < j < |segs| ==> !(segs[j].vaddr <= va < segs[j].vaddr + segs[j].memSize))
      ensures UserByte(m, pml4, va)
              == Some(if va < segs[k].vaddr + segs[k].fileSize then data[segs[k].fileOffset + va - segs[k].vaddr]
                      else 0)
    {
      ImageOfLastCover(segs, data, k, va);
    }
    StackFlags(segs, page);
  }

  lemma StackFlags(segs: seq<ProgramHeader>, page: nat)
    ensures StackPage(page) ==> PageFlags(segs, page) == Some(Flags(7, 0))
  {}

  /** After a successful load every address of the lower half means to the program what the file says. */
  lemma LoadedView(m: Memory, supply: seq<nat>, data: seq<Byte>, cr3: nat, s: LoadStep)
    returns (segs: seq<ProgramHeader>)
    requires Sound(m, supply, cr3) && cr3 !in supply && LowerHalfImage(data) && s == LoadIn(m, supply, data, cr3)
    requires s.result.Loaded?
    ensures GoodImage(data, segs)
    ensures s.result.entry == ParseHeader(data).value.entry && s.result.stackTop == 0x7000_0000_8000
    ensures forall va :: 0 <= va < LOWER_HALF_END ==> UserView(s.mem, s.result.pml4, data, segs, va)
  {
    hide ParseHeader, LowerHalfImage, ImageNodes, LoadIn, HoldsImage, UserView, SpaceMade, PagesTaken, Sound, Spent,
         Canonical;
    segs := LowerHalfLoaded(m, supply, data, cr3, s);
    forall va | 0 <= va < LOWER_HALF_END ensures UserView(s.mem, s.result.pml4, data, segs, va) {
      HeldView(s.mem, s.result.pml4, data, segs, va);
    }
  }

  // ---- Addresses that cannot be used ----

  /** A virtual address: the upper sixteen bits repeat bit 47. */
  predicate IsAddress(va: nat) {
    va < 0x8000_0000_0000 || 0xFFFF_8000_0000_0000 <= va < 0x1_0000_0000_0000_0000
  }

  /** A range that can be mapped: both ends are addresses, and the last page of the lower half is not in it. */
  predicate Mappable(start: nat, size: nat) {
    IsAddress(start) && IsAddress(start + size) && !(start / 4096 <= 0x7_FFFF_FFFF <= (start + size - 1) / 4096)
  }

  lemma {:induction false} PagesMappable(m: Memory, supply: seq<nat>, pml4: nat, page: nat, last: nat, f: Flags)
    requires LoadModel.Sound(m, supply, pml4) && PagesIn(m, supply, pml4, page, last, f).ok
    ensures !(page <= 0x7_FFFF_FFFF <= last)
    decreases last + 1 - page
  {
    hide PageIn;
    if page <= last {
      var r := PageIn(m, supply, pml4, page, f);
      PagesMappable(r.mem, r.supply, pml4, page + 1, last, f);
    }
  }

  lemma RegionMappable(m: Memory, supply: seq<nat>, pml4: nat, start: nat, size: nat, f: Flags)
    requires LoadModel.Sound(m, supply, pml4) && size > 0 && RegionIn(m, supply, pml4, start, size, f).ok
    ensures Mappable(start, size)
  {
    hide PagesIn, PathOf;
    PagesMappable(m, supply, pml4, start / PAGE_SIZE, LastPage(start, size), f);
  }

  /** Program header `i`, if it is a segment that takes up memory, can be mapped. */
  predicate HeaderMappable(data: seq<Byte>, h: Header, i: nat)
    requires 56 <= h.phentsize
  {
    var r := ParseProgramHeader(data, h, i);
    r.Ok? && (r.value.Some? && r.value.value.memSize > 0 ==> Mappable(r.value.value.vaddr, r.value.value.memSize))
  }

  lemma HeaderDone(m: Memory, supply: seq<nat>, pml4: nat, data: seq<Byte>, h: Header, i: nat)
    requires LoadModel.Sound(m, supply, pml4) && 56 <= h.phentsize
    requires HeaderIn(m, supply, pml4, data, h, i).outcome == Done
    ensures HeaderMappable(data, h, i)
  {
    hide ParseProgramHeader, RegionIn, FillIn, Mappable, LoadModel.Sound;
    var r := ParseProgramHeader(data, h, i);
    if r.Ok? && r.value.Some? && r.value.value.memSize > 0 {
      var ph := r.value.value;
      RegionMappable(m, supply, pml4, ph.vaddr, ph.memSize, SegmentFlags(ph));
    }
  }

  lemma {:induction false} HeadersDone(m: Memory, supply: seq<nat>, pml4: nat, data: seq<Byte>, h: Header, n: nat)
    requires LoadModel.Sound(m, supply, pml4) && 56 <= h.phentsize
    requires HeadersIn(m, supply, pml4, data, h, n).outcome == Done
    ensures forall i :: 0 <= i < n ==> HeaderMappable(data, h, i)
  {
    hide HeaderIn, HeaderMappable, LoadModel.Sound;
    if n > 0 {
      HeadersDone(m, supply, pml4, data, h, n - 1);
      var l := HeadersIn(m, supply, pml4, data, h, n - 1);
      HeaderDone(l.mem, l.supply, pml4, data, h, n - 1);
    }
  }

  /** Whatever the memory and the image, in either half: a load succeeds only if the entry point is an address and every
      segment that takes up memory can be mapped; in particular none touches the last page of the lower half. */
  lemma LoadedMappable(m: Memory, supply: seq<nat>, data: seq<Byte>, cr3: nat)
    requires LoadModel.Sound(m, supply, cr3) && LoadIn(m, supply, data, cr3).result.Loaded?
    ensures ParseHeader(data).Ok? && IsAddress(ParseHeader(data).value.entry)
    ensures forall i :: 0 <= i < ParseHeader(data).value.phnum ==> HeaderMappable(data, ParseHeader(data).value, i)
  {
    hide ParseHeader, HeadersIn, RegionIn, HeaderMappable;
    var h, p := ParseHeader(data).value, supply[0];
    FirstInSupply(m, supply);
    var m1 := m[p := ProcessRoot(m[cr3])];
    var r := RegionIn(m1, supply[1..], p, USER_STACK_START, USER_STACK_SIZE, RegionFlags(true, false));
    HeadersDone(r.mem, r.supply, p, data, h, h.phnum);
  }
}
