/** The boot memory map (`shared/abi/src/boot.rs`) and the physical frame allocator on top of it
    (`kernel/src/memory.rs`). */
module Frames {
  import opened Words
  import opened Bytes
  import PageTables

  const PAGE: nat := 4096
  const LOW_MEMORY_CUTOFF: nat := 0x10_0000

  datatype Descriptor = Descriptor(ty: nat, start: nat, pages: nat)

  // ---- The map as bytes ----

  /** `raw` is the memory behind the descriptor pointer: `map_size` bytes. */
  datatype BootMemoryMap = BootMemoryMap(isNull: bool, raw: seq<Byte>, descSize: nat)

  const DESCRIPTOR_SIZE: nat := 40

  function EntryCount(bootMap: BootMemoryMap): nat {
    if bootMap.descSize == 0 then 0 else |bootMap.raw| / bootMap.descSize
  }

  lemma EntryInBounds(size: nat, stride: nat, index: nat)
    requires stride >= DESCRIPTOR_SIZE && index < size / stride
    ensures index * stride + DESCRIPTOR_SIZE <= size
  {
    assert (index + 1) * stride <= size / stride * stride <= size;
  }

  /** Entry `index`, when there is one; every byte read lies inside the map. */
  function Get(bootMap: BootMemoryMap, index: nat): (d: Option<Descriptor>)
    ensures d.Some? <==> index < EntryCount(bootMap) && !bootMap.isNull && bootMap.descSize >= DESCRIPTOR_SIZE
  {
    if index >= EntryCount(bootMap) || bootMap.isNull || bootMap.descSize < DESCRIPTOR_SIZE then None
    else
      EntryInBounds(|bootMap.raw|, bootMap.descSize, index);
      var at := index * bootMap.descSize;
      Some(Descriptor(Field(bootMap.raw, at, 4), Field(bootMap.raw, at + 8, 8), Field(bootMap.raw, at + 24, 8)))
  }

  /** What iterating the map yields. */
  function Descriptors(bootMap: BootMemoryMap): (ds: seq<Descriptor>)
    ensures forall i :: 0 <= i < |ds| ==> Get(bootMap, i) == Some(ds[i])
    ensures Get(bootMap, |ds|) == None
  {
    if bootMap.isNull || bootMap.descSize < DESCRIPTOR_SIZE then []
    else seq(EntryCount(bootMap), i requires 0 <= i < EntryCount(bootMap) => Get(bootMap, i).value)
  }

  // ---- One allocation ----

  predicate Usable(d: Descriptor) {
    d.ty == 7 || d.ty == 3 || d.ty == 4
  }

  predicate Fits(d: Descriptor) {
    d.pages * PAGE < TWO_64 && d.start + d.pages * PAGE < TWO_64
  }

  function End(d: Descriptor): nat {
    d.start + d.pages * PAGE
  }

  /** `align_up`, which returns an address unchanged when rounding it would overflow. */
  function AlignUp(v: nat): (r: nat)
    ensures v + PAGE <= TWO_64 ==> r % PAGE == 0 && v <= r < v + PAGE
    ensures v <= r
  {
    if v + PAGE - 1 >= TWO_64 then v else (v + PAGE - 1) / PAGE * PAGE
  }

  function Max(a: nat, b: nat): nat {
    if a >= b then a else b
  }

  datatype Result = Frame(address: nat) | Exhausted | Overflow

  /** The outcome of one call with cursor `next`, looking at the descriptors from `i` on.
      `Overflow` is the panic on a usable descriptor whose end does not fit in 64 bits. */
  function Scan(ds: seq<Descriptor>, next: nat, i: nat): Result
    requires i <= |ds|
    decreases |ds| - i
  {
    if i == |ds| then Exhausted
    else if !Usable(ds[i]) then Scan(ds, next, i + 1)
    else if !Fits(ds[i]) then Overflow
    else
      var candidate := AlignUp(Max(next, ds[i].start));
      if candidate < End(ds[i]) then
        if candidate + PAGE >= TWO_64 then Exhausted else Frame(candidate)
      else Scan(ds, next, i + 1)
  }

  class FrameAllocator {
    const ds: seq<Descriptor>
    var next: nat

    constructor (bootMap: BootMemoryMap)
      ensures ds == Descriptors(bootMap) && next == LOW_MEMORY_CUTOFF
    {
      ds := Descriptors(bootMap);
      next := LOW_MEMORY_CUTOFF;
    }

    method AllocatePhysicalFrame() returns (r: Result)
      modifies this
      ensures r == Scan(ds, old(next), 0)
      ensures next == if r.Frame? then r.address + PAGE else old(next)
    {
      var i := 0;
      while i < |ds|
        invariant i <= |ds| && next == old(next) && Scan(ds, next, i) == Scan(ds, next, 0)
      {
        if Usable(ds[i]) {
          if !Fits(ds[i]) {
            return Overflow;
          }
          var candidate := AlignUp(Max(next, ds[i].start));
          if candidate < End(ds[i]) {
            if candidate + PAGE >= TWO_64 {
              return Exhausted;
            }
            next := candidate + PAGE;
            return Frame(candidate);
          }
        }
        i := i + 1;
      }
      return Exhausted;
    }
  }

  // ---- What every frame satisfies, for any map ----

  /** A frame is page aligned, not below the cursor, and starts inside a usable descriptor; it lies
      wholly inside it when that descriptor starts on a page boundary. */
  lemma {:induction false} ScanFrame(ds: seq<Descriptor>, next: nat, i: nat) returns (k: nat)
    requires i <= |ds| && Scan(ds, next, i).Frame?
    ensures var a := Scan(ds, next, i).address;
            && i <= k < |ds| && Usable(ds[k]) && Fits(ds[k])
            && a % PAGE == 0 && next <= a && ds[k].start <= a < End(ds[k])
            && (ds[k].start % PAGE == 0 ==> a + PAGE <= End(ds[k]))
            && forall j :: i <= j < k && Usable(ds[j]) ==> End(ds[j]) <= AlignUp(Max(next, ds[j].start))
    decreases |ds| - i
  {
    if Usable(ds[i]) && AlignUp(Max(next, ds[i].start)) < End(ds[i]) {
      k := i;
    } else {
      k := ScanFrame(ds, next, i + 1);
    }
  }

  lemma FrameStartsInUsable(ds: seq<Descriptor>, next: nat)
    requires Scan(ds, next, 0).Frame?
    ensures var a := Scan(ds, next, 0).address; StartsInUsable(ds, a) && a % PAGE == 0 && next <= a
  {
    hide Scan, AlignUp;
    var k := ScanFrame(ds, next, 0);
  }

  /** The frames handed out by the first `n` calls from cursor `next`. */
  function Run(ds: seq<Descriptor>, next: nat, n: nat): (fs: seq<nat>)
    decreases n
  {
    if n == 0 then []
    else
      match Scan(ds, next, 0)
      case Frame(a) => [a] + Run(ds, a + PAGE, n - 1)
      case _ => Run(ds, next, n - 1)
  }

  /** Page aligned and strictly increasing, from the cursor up, each starting inside a usable
      descriptor. */
  ghost predicate IncreasingFrom(ds: seq<Descriptor>, next: nat, fs: seq<nat>) {
    && (forall i :: 0 <= i < |fs| ==> fs[i] % PAGE == 0 && next <= fs[i] && StartsInUsable(ds, fs[i]))
    && (forall i, j :: 0 <= i < j < |fs| ==> fs[i] + PAGE <= fs[j])
  }

  lemma IncreasingCons(ds: seq<Descriptor>, next: nat, a: nat, rest: seq<nat>)
    requires a % PAGE == 0 && next <= a && StartsInUsable(ds, a) && IncreasingFrom(ds, a + PAGE, rest)
    ensures IncreasingFrom(ds, next, [a] + rest)
  {
    hide StartsInUsable;
    var fs := [a] + rest;
    assert forall i :: 1 <= i < |fs| ==> fs[i] == rest[i - 1];
  }

  /** So are the frames of a run, for any memory map. */
  lemma {:induction false} RunIncreasing(ds: seq<Descriptor>, next: nat, n: nat)
    ensures IncreasingFrom(ds, next, Run(ds, next, n))
    decreases n
  {
    hide Scan, IncreasingFrom, StartsInUsable;
    if n == 0 {
      assert IncreasingFrom(ds, next, []) by { NoneIncreasing(ds, next); }
    } else if Scan(ds, next, 0).Frame? {
      var a := Scan(ds, next, 0).address;
      FrameStartsInUsable(ds, next);
      RunIncreasing(ds, a + PAGE, n - 1);
      IncreasingCons(ds, next, a, Run(ds, a + PAGE, n - 1));
    } else {
      RunIncreasing(ds, next, n - 1);
    }
  }

  lemma NoneIncreasing(ds: seq<Descriptor>, next: nat)
    ensures IncreasingFrom(ds, next, [])
  {}

  ghost predicate StartsInUsable(ds: seq<Descriptor>, a: nat) {
    exists k :: 0 <= k < |ds| && Usable(ds[k]) && ds[k].start <= a < End(ds[k])
  }

  // ---- Exhaustiveness ----

  /** What the firmware promises: page-aligned descriptors that fit and do not overlap. */
  ghost predicate SoundMap(ds: seq<Descriptor>) {
    && (forall i :: 0 <= i < |ds| ==> Fits(ds[i]) && ds[i].start % PAGE == 0)
    && (forall i, j :: 0 <= i < j < |ds| ==> End(ds[i]) <= ds[j].start || End(ds[j]) <= ds[i].start)
  }

  ghost predicate InDescriptor(d: Descriptor, a: nat) {
    Usable(d) && d.start <= a && a + PAGE <= End(d)
  }

  /** A page-aligned frame above the low-memory cutoff inside a usable descriptor. */
  ghost predicate UsableFrame(ds: seq<Descriptor>, a: nat) {
    a % PAGE == 0 && a >= LOW_MEMORY_CUTOFF && exists k :: 0 <= k < |ds| && InDescriptor(ds[k], a)
  }

  /** The usable descriptors that reach above the cutoff come in ascending order. */
  ghost predicate Ascending(ds: seq<Descriptor>) {
    forall i, j, a: nat, b: nat ::
      (0 <= i < j < |ds| && InDescriptor(ds[i], a) && InDescriptor(ds[j], b) &&
       a >= LOW_MEMORY_CUTOFF && b >= LOW_MEMORY_CUTOFF && a % PAGE == 0 && b % PAGE == 0) ==> a < b
  }

  /** In an ascending map one call returns a frame no higher than any usable frame at or above the
      cursor. */
  lemma {:induction false} ScanLeast(ds: seq<Descriptor>, next: nat, i: nat, k: nat, x: nat)
    requires SoundMap(ds) && Ascending(ds) && i <= k < |ds| && next >= LOW_MEMORY_CUTOFF
    requires InDescriptor(ds[k], x) && x % PAGE == 0 && next <= x
    ensures Scan(ds, next, i).Frame? && Scan(ds, next, i).address <= x
    decreases k - i
  {
    hide AlignUp, Ascending;
    assert Fits(ds[i]) && Fits(ds[k]);
    var c := AlignUp(Max(next, ds[i].start));
    if i == k {
      AlignUpLeast(Max(next, ds[i].start), x);
    }
    if Usable(ds[i]) && c < End(ds[i]) {
      CandidateFits(ds[i], c);
      CandidateLeast(ds, i, c, k, x, next);
    } else {
      ScanLeast(ds, next, i + 1, k, x);
    }
  }

  /** Rounding up gives the first page boundary. */
  lemma AlignUpLeast(v: nat, x: nat)
    requires v <= x && x % PAGE == 0 && x + PAGE < TWO_64
    ensures AlignUp(v) <= x
  {
    assert x == PAGE * (x / PAGE);
    if AlignUp(v) > x {
      PagesApart(x, AlignUp(v));
    }
  }

  lemma CandidateFits(d: Descriptor, c: nat)
    requires Fits(d) && Usable(d) && d.start % PAGE == 0 && d.start <= c < End(d)
             && (c % PAGE == 0 || c + PAGE > TWO_64)
    ensures c % PAGE == 0 && c + PAGE <= End(d) && InDescriptor(d, c)
  {
    assert End(d) == PAGE * (d.start / PAGE + d.pages);
    if c % PAGE == 0 {
      PagesApart(c, End(d));
    } else {
      assert TWO_64 == PAGE * (TWO_64 / PAGE);
      PagesApart(End(d), TWO_64);
    }
  }

  lemma CandidateLeast(ds: seq<Descriptor>, i: nat, c: nat, k: nat, x: nat, next: nat)
    requires Ascending(ds) && i <= k < |ds| && next >= LOW_MEMORY_CUTOFF && Fits(ds[k])
    requires InDescriptor(ds[i], c) && c % PAGE == 0 && c == AlignUp(Max(next, ds[i].start))
    requires InDescriptor(ds[k], x) && x % PAGE == 0 && next <= x
    ensures c <= x
  {
    if i == k {
      AlignUpLeast(Max(next, ds[i].start), x);
    }
  }

  /** So from any cursor, enough calls hand out any usable frame that lies ahead. */
  lemma {:induction false} RunReaches(ds: seq<Descriptor>, next: nat, k: nat, x: nat) returns (n: nat)
    requires SoundMap(ds) && Ascending(ds) && k < |ds| && next >= LOW_MEMORY_CUTOFF
    requires InDescriptor(ds[k], x) && x % PAGE == 0 && next <= x
    ensures x in Run(ds, next, n)
    decreases x - next
  {
    hide Scan, Ascending, SoundMap, AlignUp;
    ScanLeast(ds, next, 0, k, x);
    var a := Scan(ds, next, 0).address;
    var j := ScanFrame(ds, next, 0);
    if a == x {
      n := 1;
      assert Run(ds, next, 1) == [a] + Run(ds, a + PAGE, 0);
    } else {
      PagesApart(a, x);
      var m := RunReaches(ds, a + PAGE, k, x);
      n := m + 1;
      assert Run(ds, next, n) == [a] + Run(ds, a + PAGE, m);
    }
  }

  /** If a descriptor is listed after one that lies above it, none of its frames is ever handed out. */
  lemma NeverReturned(ds: seq<Descriptor>, next: nat, i: nat, j: nat, a: nat, x: nat)
    requires SoundMap(ds) && 0 <= i < j < |ds| && InDescriptor(ds[i], a) && InDescriptor(ds[j], x) && x < a
    ensures Scan(ds, next, 0) != Frame(x)
  {
    if Scan(ds, next, 0).Frame? {
      var k := ScanFrame(ds, next, 0);
    }
  }

  lemma {:induction false} NeverInRun(ds: seq<Descriptor>, next: nat, n: nat, i: nat, j: nat, a: nat, x: nat)
    requires SoundMap(ds) && 0 <= i < j < |ds| && InDescriptor(ds[i], a) && InDescriptor(ds[j], x) && x < a
    ensures x !in Run(ds, next, n)
    decreases n
  {
    if n > 0 {
      NeverReturned(ds, next, i, j, a, x);
      match Scan(ds, next, 0)
      case Frame(b) => NeverInRun(ds, b + PAGE, n - 1, i, j, a, x);
      case _ => NeverInRun(ds, next, n - 1, i, j, a, x);
    }
  }

  /** The allocator eventually hands out `x`. */
  ghost predicate Served(ds: seq<Descriptor>, x: nat) {
    exists n: nat :: x in Run(ds, LOW_MEMORY_CUTOFF, n)
  }

  /** Every usable frame is eventually handed out exactly when the map is in ascending order. */
  lemma ExhaustiveIffAscending(ds: seq<Descriptor>)
    requires SoundMap(ds)
    ensures (forall x :: UsableFrame(ds, x) ==> Served(ds, x)) <==> Ascending(ds)
  {
    if Ascending(ds) {
      forall x | UsableFrame(ds, x) ensures Served(ds, x) {
        var k :| 0 <= k < |ds| && InDescriptor(ds[k], x);
        var n := RunReaches(ds, LOW_MEMORY_CUTOFF, k, x);
      }
    } else {
      var i, j, a: nat, b: nat :| 0 <= i < j < |ds| && InDescriptor(ds[i], a) && InDescriptor(ds[j], b) &&
                        a >= LOW_MEMORY_CUTOFF && b >= LOW_MEMORY_CUTOFF && a % PAGE == 0 && b % PAGE == 0 && b <= a;
      assert b < a by { assert a != b; }
      forall n: nat ensures b !in Run(ds, LOW_MEMORY_CUTOFF, n) {
        NeverInRun(ds, LOW_MEMORY_CUTOFF, n, i, j, a, b);
      }
      assert UsableFrame(ds, b) && !Served(ds, b);
    }
  }

  /** Two one-page descriptors listed in descending order: the lower frame is lost. */
  lemma UnsortedMapLosesFrame()
    ensures var ds := [Descriptor(7, 0x40_0000, 1), Descriptor(7, 0x20_0000, 1)];
            SoundMap(ds) && UsableFrame(ds, 0x20_0000) && !Served(ds, 0x20_0000)
  {
    var ds := [Descriptor(7, 0x40_0000, 1), Descriptor(7, 0x20_0000, 1)];
    assert InDescriptor(ds[0], 0x40_0000) && InDescriptor(ds[1], 0x20_0000);
    forall n: nat ensures 0x20_0000 !in Run(ds, LOW_MEMORY_CUTOFF, n) {
      NeverInRun(ds, LOW_MEMORY_CUTOFF, n, 0, 1, 0x40_0000, 0x20_0000);
    }
  }

  /** Once a call finds nothing, every later one finds nothing; in an ascending map that happens
      only when no usable frame is left. */
  lemma ExhaustedForGood(ds: seq<Descriptor>, next: nat, n: nat, x: nat)
    requires SoundMap(ds) && Scan(ds, next, 0).Exhausted? && next >= LOW_MEMORY_CUTOFF
    ensures Run(ds, next, n) == []
    ensures Ascending(ds) && UsableFrame(ds, x) ==> x < next
  {
    ExhaustedRun(ds, next, n);
    if Ascending(ds) && UsableFrame(ds, x) && next <= x {
      var k :| 0 <= k < |ds| && InDescriptor(ds[k], x);
      ScanLeast(ds, next, 0, k, x);
    }
  }

  lemma {:induction false} ExhaustedRun(ds: seq<Descriptor>, next: nat, n: nat)
    requires Scan(ds, next, 0).Exhausted?
    ensures Run(ds, next, n) == []
    decreases n
  {
    if n > 0 {
      ExhaustedRun(ds, next, n - 1);
    }
  }

  /** Every frame of a run is a usable one, above the cutoff. */
  lemma {:induction false} RunUsable(ds: seq<Descriptor>, next: nat, n: nat, x: nat)
    requires SoundMap(ds) && next >= LOW_MEMORY_CUTOFF && x in Run(ds, next, n)
    ensures UsableFrame(ds, x)
    decreases n
  {
    hide Scan, AlignUp, UsableFrame;
    match Scan(ds, next, 0)
    case Frame(a) =>
      if x == a {
        FrameUsable(ds, next);
      } else {
        assert Run(ds, next, n) == [a] + Run(ds, a + PAGE, n - 1);
        FrameStartsInUsable(ds, next);
        RunUsable(ds, a + PAGE, n - 1, x);
      }
    case _ => RunUsable(ds, next, n - 1, x);
  }

  lemma FrameUsable(ds: seq<Descriptor>, next: nat)
    requires SoundMap(ds) && next >= LOW_MEMORY_CUTOFF && Scan(ds, next, 0).Frame?
    ensures UsableFrame(ds, Scan(ds, next, 0).address)
  {
    hide Scan, AlignUp;
    var k := ScanFrame(ds, next, 0);
    assert ds[k].start % PAGE == 0 && InDescriptor(ds[k], Scan(ds, next, 0).address);
  }

  /** From a sound, ascending map exactly the usable frames are handed out. */
  lemma ServedIffUsable(ds: seq<Descriptor>, x: nat)
    requires SoundMap(ds) && Ascending(ds)
    ensures Served(ds, x) <==> UsableFrame(ds, x)
  {
    hide Ascending, SoundMap, Run, UsableFrame;
    ExhaustiveIffAscending(ds);
    if Served(ds, x) {
      var n: nat :| x in Run(ds, LOW_MEMORY_CUTOFF, n);
      RunUsable(ds, LOW_MEMORY_CUTOFF, n, x);
    }
  }

  /** In an ascending map nothing usable is skipped: after `n` calls, every usable frame below the
      last one handed out has been handed out. */
  lemma {:induction false} RunSkipsNothing(ds: seq<Descriptor>, next: nat, n: nat, x: nat, y: nat)
    requires SoundMap(ds) && Ascending(ds) && next >= LOW_MEMORY_CUTOFF
    requires UsableFrame(ds, x) && next <= x && y in Run(ds, next, n) && x <= y
    ensures x in Run(ds, next, n)
    decreases n
  {
    hide Scan, Ascending, SoundMap;
    var k :| 0 <= k < |ds| && InDescriptor(ds[k], x);
    ScanLeast(ds, next, 0, k, x);
    var a := Scan(ds, next, 0).address;
    var j := ScanFrame(ds, next, 0);
    assert Run(ds, next, n) == [a] + Run(ds, a + PAGE, n - 1);
    if a != x {
      PagesApart(a, x);
      RunSkipsNothing(ds, a + PAGE, n - 1, x, y);
    }
  }

  lemma PagesApart(a: nat, x: nat)
    requires a % PAGE == 0 && x % PAGE == 0 && a < x
    ensures a + PAGE <= x
  {
    assert a == PAGE * (a / PAGE) && x == PAGE * (x / PAGE);
  }

  /** No frame overlaps an unusable descriptor. */
  lemma FrameAvoidsUnusable(ds: seq<Descriptor>, next: nat, u: nat)
    requires SoundMap(ds) && Scan(ds, next, 0).Frame? && u < |ds| && !Usable(ds[u])
    ensures var a := Scan(ds, next, 0).address; a + PAGE <= ds[u].start || End(ds[u]) <= a
  {
    var k := ScanFrame(ds, next, 0);
    assert ds[k].start % PAGE == 0;
  }

  /** A supply of frame numbers for the page-table code: distinct, as strictly increasing addresses are. */
  lemma RunIsDistinct(ds: seq<Descriptor>, next: nat, n: nat)
    ensures var fs := Run(ds, next, n); forall i, j :: 0 <= i < j < |fs| ==> fs[i] / PAGE != fs[j] / PAGE
  {
    RunIncreasing(ds, next, n);
  }

  // ---- The whole supply ----

  /** The cursor after `n` calls. */
  function Cursor(ds: seq<Descriptor>, next: nat, n: nat): nat
    decreases n
  {
    if n == 0 then next
    else
      match Scan(ds, next, 0)
      case Frame(a) => Cursor(ds, a + PAGE, n - 1)
      case _ => Cursor(ds, next, n - 1)
  }

  lemma {:induction false} NoOverflow(ds: seq<Descriptor>, next: nat, i: nat)
    requires SoundMap(ds) && i <= |ds|
    ensures !Scan(ds, next, i).Overflow?
    ensures Scan(ds, next, i).Frame? ==> Scan(ds, next, i).address + PAGE < TWO_64
    decreases |ds| - i
  {
    if i < |ds| {
      NoOverflow(ds, next, i + 1);
    }
  }

  /** From a sound map the frames run out. */
  lemma {:induction false} RunsOut(ds: seq<Descriptor>, next: nat) returns (n: nat)
    requires SoundMap(ds)
    ensures Scan(ds, Cursor(ds, next, n), 0) == Exhausted
    decreases TWO_64 - next
  {
    hide Scan, SoundMap;
    NoOverflow(ds, next, 0);
    if Scan(ds, next, 0).Frame? {
      var a := Scan(ds, next, 0).address;
      FrameStartsInUsable(ds, next);
      var k := RunsOut(ds, a + PAGE);
      n := k + 1;
    } else {
      n := 0;
    }
  }

  /** More calls only add frames, and none once there are none. */
  lemma {:induction false} RunPrefix(ds: seq<Descriptor>, next: nat, n: nat, k: nat)
    ensures Run(ds, next, n) <= Run(ds, next, n + k)
    ensures Scan(ds, Cursor(ds, next, n), 0) == Exhausted ==> Run(ds, next, n + k) == Run(ds, next, n)
    decreases n
  {
    hide Scan;
    if n > 0 {
      match Scan(ds, next, 0)
      case Frame(a) => RunPrefix(ds, a + PAGE, n - 1, k);
      case _ => RunPrefix(ds, next, n - 1, k);
    } else if Scan(ds, next, 0) == Exhausted {
      ExhaustedRun(ds, next, k);
    }
  }

  /** From a sound, ascending map some number of calls gives exactly the usable frames, in ascending order, and no
      later call gives another. */
  lemma AllUsableInOrder(ds: seq<Descriptor>) returns (n: nat)
    requires SoundMap(ds) && Ascending(ds)
    ensures forall x :: x in Run(ds, LOW_MEMORY_CUTOFF, n) <==> x >= 0 && UsableFrame(ds, x)
    ensures IncreasingFrom(ds, LOW_MEMORY_CUTOFF, Run(ds, LOW_MEMORY_CUTOFF, n))
    ensures Scan(ds, Cursor(ds, LOW_MEMORY_CUTOFF, n), 0) == Exhausted
    ensures forall j: nat :: j >= n ==> Run(ds, LOW_MEMORY_CUTOFF, j) == Run(ds, LOW_MEMORY_CUTOFF, n)
  {
    hide Scan, SoundMap, Ascending, UsableFrame, Run, Cursor, IncreasingFrom;
    n := RunsOut(ds, LOW_MEMORY_CUTOFF);
    RunIncreasing(ds, LOW_MEMORY_CUTOFF, n);
    forall j: nat | j >= n ensures Run(ds, LOW_MEMORY_CUTOFF, j) == Run(ds, LOW_MEMORY_CUTOFF, n) {
      RunPrefix(ds, LOW_MEMORY_CUTOFF, n, j - n);
    }
    forall x ensures x in Run(ds, LOW_MEMORY_CUTOFF, n) <==> x >= 0 && UsableFrame(ds, x) {
      if x >= 0 {
        ServedIffUsable(ds, x);
        if UsableFrame(ds, x) {
          var j: nat :| x in Run(ds, LOW_MEMORY_CUTOFF, j);
          if j <= n {
            RunPrefix(ds, LOW_MEMORY_CUTOFF, j, n - j);
          }
        }
      }
    }
  }

  function Numbers(fs: seq<nat>): (ns: seq<nat>)
    ensures |ns| == |fs| && forall i :: 0 <= i < |fs| ==> ns[i] == fs[i] / PAGE
  {
    seq(|fs|, i requires 0 <= i < |fs| => fs[i] / PAGE)
  }

  /** When the usable frames exist and have 52-bit addresses, the frames of any run are a supply for the page-table
      code. */
  lemma RunIsSupply(ds: seq<Descriptor>, n: nat, m: PageTables.Memory)
    requires SoundMap(ds)
    requires forall x: nat :: UsableFrame(ds, x) ==> x / PAGE in m && x / PAGE < TWO_40
    ensures PageTables.ValidSupply(m, Numbers(Run(ds, LOW_MEMORY_CUTOFF, n)))
  {
    hide SoundMap, UsableFrame, Run;
    var fs := Run(ds, LOW_MEMORY_CUTOFF, n);
    RunIsDistinct(ds, LOW_MEMORY_CUTOFF, n);
    forall i | 0 <= i < |fs| ensures Numbers(fs)[i] in m && Numbers(fs)[i] < TWO_40 {
      RunUsable(ds, LOW_MEMORY_CUTOFF, n, fs[i]);
    }
  }
}
