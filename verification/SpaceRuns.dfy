/** All address spaces together: the kernel's PML4 with the stacks of the tasks, and the processes made so far
    (`kernel/src/boot.rs`, `kernel/src/process.rs`, `kernel/src/task/mod.rs`). */
module SpaceRuns {
  import opened Words
  import opened Bytes
  import opened KernelElf
  import opened PageTables
  import opened CloneTables
  import opened AddressSpaces
  import opened UserMemory
  import opened LoadModel
  import opened ProcessLoading
  import opened ProcessCode
  import opened KernelStacks
  import Tasks = Scheduling

  /** Physical memory, the frames still to be handed out, the kernel's PML4 with the tree of its stack slot, the
      PML4s of the processes in the order they were made, and the number of stacks. */
  datatype Spaces = Spaces(mem: Memory, supply: seq<nat>, kernel: nat, owner: Owner, procs: seq<nat>, stacks: nat)

  // ---- The invariant ----

  ghost function Reach(s: Spaces): set<nat> {
    Area(s.owner, s.supply)
  }

  /** Neither the allocator nor the kernel's stack mapper can touch the tables or the pages of process `q`. */
  ghost predicate Separate(s: Spaces, q: nat) {
    && q in s.mem && q !in Reach(s) && TablesFirst(s.mem, s.mem[q], 3, 256) !! Reach(s)
    && forall va :: 0 <= va < LOWER_HALF_END && Translate(s.mem, q, va).Some? ==>
         Translate(s.mem, q, va).value.frame !in Reach(s)
  }

  ghost predicate ProcessOk(s: Spaces, q: nat) {
    && Separate(s, q) && LowerHalfWellFormed(s.mem, q)
    && s.kernel in s.mem && SameUpperHalf(s.mem, q, s.kernel)
  }

  ghost predicate KernelOk(s: Spaces) {
    && TreeReady(s.mem, s.supply, s.owner, s.kernel, SLOT, SLOT + 1) && s.kernel in s.mem
    && StacksMapped(s.mem, s.kernel, s.stacks, 0) && Linked(s.mem, s.kernel, SLOT, STACK_FLAGS)
    && s.stacks <= Tasks.MAX_TASK_ID
  }

  ghost predicate Inv(s: Spaces) {
    KernelOk(s) && forall i :: 0 <= i < |s.procs| ==> ProcessOk(s, s.procs[i])
  }

  // ---- Steps ----

  datatype Event =
    | SpaceCreated(cr3: nat, p: nat)
    | ProcessLoaded(cr3: nat, p: nat, data: seq<Byte>, segs: seq<ProgramHeader>)
    | ProcessForked(parent: nat, p: nat)
    | LoadFailed
    | StackAdded

  /** A PML4 that may be in CR3: the kernel's or a process's. */
  ghost predicate Root(s: Spaces, r: nat) {
    r in s.mem && (r == s.kernel || r in s.procs)
  }

  ghost predicate NewSpace(s: Spaces, s': Spaces, root: nat, p: nat) {
    && Root(s, root) && SpaceMade(s.mem, s.supply, s.mem[root], s'.mem, s'.supply, p)
    && s' == s.(mem := s'.mem, supply := s'.supply, procs := s.procs + [p])
  }

  ghost predicate Step(s: Spaces, e: Event, s': Spaces) {
    match e
    case SpaceCreated(cr3, p) =>
      NewSpace(s, s', cr3, p) && forall i :: 0 <= i < 256 ==> s'.mem[p][i] == ZERO
    case ProcessLoaded(cr3, p, data, segs) =>
      && NewSpace(s, s', cr3, p) && PagesTaken(s'.mem, p, s.supply, s'.supply)
      && GoodImage(data, segs) && HoldsImage(s'.mem, p, segs, data)
    case ProcessForked(parent, p) =>
      parent in s.procs && NewSpace(s, s', parent, p) && ForkedFrom(s.mem, parent, s'.mem, p)
    case LoadFailed =>
      Spent(s.mem, s.supply, s'.mem, s'.supply) && s' == s.(mem := s'.mem, supply := s'.supply)
    case StackAdded =>
      && s.stacks < Tasks.MAX_TASK_ID
      && StackDone(s.mem, s.owner, s.supply, s'.mem, s'.owner, s'.supply, s.kernel, s.stacks + 1)
      && s' == s.(mem := s'.mem, supply := s'.supply, owner := s'.owner, stacks := s.stacks + 1)
  }

  // ---- What a step leaves alone ----

  /** The lower half of `q` translates as before and holds the same bytes. */
  ghost predicate UserSame(m: Memory, e: Memory, q: nat) {
    forall va :: 0 <= va < LOWER_HALF_END ==>
      Translate(e, q, va) == Translate(m, q, va) && UserByte(e, q, va) == UserByte(m, q, va)
  }

  /** Only frames in reach were written, the reach did not grow, and the kernel's PML4 is as it was. */
  ghost predicate Within(s: Spaces, s': Spaces) {
    && SameOutside(s.mem, s'.mem, Reach(s)) && Reach(s') <= Reach(s)
    && s'.kernel == s.kernel && s.kernel in s.mem && s.kernel in s'.mem && s'.mem[s.kernel] == s.mem[s.kernel]
  }

  lemma UserKept(s: Spaces, s': Spaces, q: nat)
    requires Separate(s, q) && Within(s, s')
    ensures UserSame(s.mem, s'.mem, q)
  {
    hide Translate, TablesFirst, Reach;
    forall va | 0 <= va < LOWER_HALF_END
      ensures Translate(s'.mem, q, va) == Translate(s.mem, q, va) && UserByte(s'.mem, q, va) == UserByte(s.mem, q, va)
    {
      LowerHalfUnchanged(s.mem, s'.mem, Reach(s), q, va);
    }
  }

  lemma ProcessKept(s: Spaces, s': Spaces, q: nat)
    requires ProcessOk(s, q) && Within(s, s')
    ensures ProcessOk(s', q) && UserSame(s.mem, s'.mem, q)
  {
    hide Translate, TablesFirst, Reach, WellFormed, UserByte;
    UserKept(s, s', q);
    EntriesUnchanged(s.mem, s'.mem, Reach(s), s.mem[q], 3, 256);
  }

  lemma SpentWithin(s: Spaces, s': Spaces)
    requires KernelOk(s) && Spent(s.mem, s.supply, s'.mem, s'.supply) && s'.owner == s.owner && s'.kernel == s.kernel
    ensures Within(s, s')
  {
    hide Tree, StacksMapped, ValidSupply;
    OwnersInMemory(s.mem, s.owner, s.kernel, SLOT, SLOT + 1);
  }

  /** Frames of the supply do not belong to the kernel's tree, so its stacks stay when some are spent. */
  lemma SpentKernel(s: Spaces, s': Spaces)
    requires KernelOk(s) && Spent(s.mem, s.supply, s'.mem, s'.supply)
    requires s'.owner == s.owner && s'.kernel == s.kernel && s'.stacks == s.stacks
    ensures KernelOk(s') && KeepsPages(s.mem, s'.mem, s.kernel)
  {
    hide Translate, Linked, Owned, Tree, ValidSupply;
    SpentWithin(s, s');
    SpentTree(s.mem, s.supply, s.owner, s.kernel, s'.mem, s'.supply);
    LinkedKept(s.mem, s'.mem, s.kernel, SLOT, STACK_FLAGS);
    forall k | 0 <= k < SLOT_PAGES
      ensures Translate(s'.mem, s.kernel, PageAddress(k)) == Translate(s.mem, s.kernel, PageAddress(k))
    {
      SpentWalk(s.mem, s.supply, s.owner, s.kernel, s'.mem, k);
    }
  }

  lemma SpentTree(m: Memory, supply: seq<nat>, owner: Owner, kernel: nat, e: Memory, rest: seq<nat>)
    requires TreeReady(m, supply, owner, kernel, SLOT, SLOT + 1) && Spent(m, supply, e, rest)
    ensures TreeReady(e, rest, owner, kernel, SLOT, SLOT + 1)
  {
    hide DistinctPaths, ClosedAbove, ValidSupply;
  }

  lemma {:induction false} TreeWalkKept(m: Memory, owner: Owner, pml4: nat, lo: nat, hi: nat, e: Memory, g: nat,
                                        path: seq<nat>)
    requires Owned(m, owner, pml4, lo, hi) && WalkFrom(owner, g, path, lo, hi)
    requires forall f :: f in owner && f in m ==> f in e && e[f] == m[f]
    requires e.Keys == m.Keys
    ensures WalkTable(e, g, path) == WalkTable(m, g, path)
    decreases |path|
  {
    hide Owned;
    OwnersInMemory(m, owner, pml4, lo, hi);
    var v := m[g][path[0]];
    if !Unused(v) && |path| > 1 {
      UsedEntry(m, owner, pml4, lo, hi, g, path[0]);
      TreeWalkKept(m, owner, pml4, lo, hi, e, v.frame, path[1..]);
    }
  }

  lemma SpentWalk(m: Memory, supply: seq<nat>, owner: Owner, kernel: nat, e: Memory, k: nat)
    requires TreeReady(m, supply, owner, kernel, SLOT, SLOT + 1) && SameOutside(m, e, Range(supply)) && k < SLOT_PAGES
    ensures Translate(e, kernel, PageAddress(k)) == Translate(m, kernel, PageAddress(k))
  {
    hide Owned, Tree, WalkTable, PathOf, ValidSupply;
    StackPath(k);
    RootWalk(m, owner, kernel, SLOT, SLOT + 1, PathOf(PageAddress(k)));
    TreeWalkKept(m, owner, kernel, SLOT, SLOT + 1, e, kernel, PathOf(PageAddress(k)));
  }

  // ---- Every step keeps the invariant ----

  /** What every step keeps: the user memory of every process there is, and every stack page. */
  ghost predicate Keeps(s: Spaces, s': Spaces) {
    && s'.kernel == s.kernel && |s.procs| <= |s'.procs| && s'.procs[..|s.procs|] == s.procs && s.stacks <= s'.stacks
    && (forall i :: 0 <= i < |s.procs| ==> UserSame(s.mem, s'.mem, s.procs[i]))
    && KeepsPages(s.mem, s'.mem, s.kernel)
  }

  lemma OldProcesses(s: Spaces, s': Spaces)
    requires Inv(s) && Within(s, s')
    ensures forall i :: 0 <= i < |s.procs| ==> ProcessOk(s', s.procs[i]) && UserSame(s.mem, s'.mem, s.procs[i])
  {
    hide ProcessOk, Within, UserSame, KernelOk;
    forall i | 0 <= i < |s.procs| ensures ProcessOk(s', s.procs[i]) && UserSame(s.mem, s'.mem, s.procs[i]) {
      ProcessKept(s, s', s.procs[i]);
    }
  }

  /** The event makes the process with PML4 `p`. */
  predicate Makes(e: Event, p: nat) {
    match e
    case SpaceCreated(_, x) => x == p
    case ProcessLoaded(_, x, _, _) => x == p
    case ProcessForked(_, x) => x == p
    case _ => false
  }

  /** No page of the new process is in reach. */
  lemma NewPages(s: Spaces, e: Event, s': Spaces, p: nat, va: nat)
    requires Inv(s) && Step(s, e, s') && Makes(e, p) && va < LOWER_HALF_END
    requires Translate(s'.mem, p, va).Some?
    ensures Translate(s'.mem, p, va).value.frame !in Reach(s')
  {
    hide TablesFirst, WellFormed, Tree, Owned, ValidSupply, StacksMapped, HoldsImage, GoodImage, PathOf, Linked;
    match e
    case SpaceCreated(_, _) =>
      LowerPath(va);
    case ProcessLoaded(_, _, _, _) =>
    case ProcessForked(parent, _) =>
      var i :| 0 <= i < |s.procs| && s.procs[i] == parent;
      assert ProcessOk(s, s.procs[i]);
  }

  lemma NewProcess(s: Spaces, e: Event, s': Spaces, root: nat, p: nat)
    requires Inv(s) && Step(s, e, s') && Makes(e, p) && NewSpace(s, s', root, p)
    ensures ProcessOk(s', p)
  {
    hide TablesFirst, WellFormed, Tree, Owned, ValidSupply, StacksMapped, Step, Translate, Linked,
         LowerHalfWellFormed;
    SpentWithin(s, s');
    forall va | 0 <= va < LOWER_HALF_END && Translate(s'.mem, p, va).Some?
      ensures Translate(s'.mem, p, va).value.frame !in Reach(s')
    {
      NewPages(s, e, s', p, va);
    }
    if root != s.kernel {
      var i :| 0 <= i < |s.procs| && s.procs[i] == root;
      assert ProcessOk(s, s.procs[i]);
    }
  }

  lemma SpaceKeeps(s: Spaces, e: Event, s': Spaces, root: nat, p: nat)
    requires Inv(s) && Step(s, e, s') && Makes(e, p) && NewSpace(s, s', root, p)
    ensures Inv(s') && Keeps(s, s')
  {
    hide KernelOk, ProcessOk, Step, SpaceMade, UserSame, KeepsPages, Within;
    NewProcess(s, e, s', root, p);
    SpentOf(s.mem, s.supply, s.mem[root], s'.mem, s'.supply, p);
    SpentWithin(s, s');
    SpentKernel(s, s');
    OldProcesses(s, s');
  }

  lemma StepKeeps(s: Spaces, e: Event, s': Spaces)
    requires Inv(s) && Step(s, e, s')
    ensures Inv(s') && Keeps(s, s')
  {
    hide KernelOk, ProcessOk, NewSpace, UserSame, KeepsPages, Within, StackDone, Spent, PagesTaken, GoodImage,
         HoldsImage, ForkedFrom;
    match e
    case SpaceCreated(cr3, p) => SpaceKeeps(s, e, s', cr3, p);
    case ProcessLoaded(cr3, p, _, _) => SpaceKeeps(s, e, s', cr3, p);
    case ProcessForked(parent, p) => SpaceKeeps(s, e, s', parent, p);
    case LoadFailed =>
      SpentWithin(s, s');
      SpentKernel(s, s');
      OldProcesses(s, s');
    case StackAdded =>
      StackWithin(s, s');
      OldProcesses(s, s');
  }

  lemma StackWithin(s: Spaces, s': Spaces)
    requires KernelOk(s) && Step(s, StackAdded, s')
    ensures Within(s, s') && KernelOk(s') && KeepsPages(s.mem, s'.mem, s.kernel)
  {
    hide TreeReady, StacksMapped, Linked, KeepsPages;
  }

  // ---- Runs ----

  ghost predicate Run(trace: seq<Spaces>, evs: seq<Event>) {
    |trace| == |evs| + 1 && forall i :: 0 <= i < |evs| ==> Step(trace[i], evs[i], trace[i + 1])
  }

  lemma {:induction false} RunKeeps(trace: seq<Spaces>, evs: seq<Event>, i: nat, j: nat)
    requires Run(trace, evs) && Inv(trace[0]) && i <= j <= |evs|
    ensures Inv(trace[i]) && Inv(trace[j]) && Keeps(trace[i], trace[j])
    decreases j, i
  {
    hide Inv, Step, Keeps;
    if i < j {
      RunKeeps(trace, evs, i, j - 1);
      StepKeeps(trace[j - 1], evs[j - 1], trace[j]);
      KeepsTwice(trace[i], trace[j - 1], trace[j]);
    } else {
      if i > 0 {
        RunKeeps(trace, evs, i - 1, i - 1);
        StepKeeps(trace[i - 1], evs[i - 1], trace[i]);
      }
      KeepsRefl(trace[i]);
    }
  }

  lemma KeepsRefl(s: Spaces)
    ensures Keeps(s, s)
  {
    hide Translate, UserByte;
  }

  lemma KeepsTwice(s: Spaces, t: Spaces, u: Spaces)
    requires Keeps(s, t) && Keeps(t, u)
    ensures Keeps(s, u)
  {
    hide Translate, UserByte;
    assert forall i :: 0 <= i < |s.procs| ==> t.procs[i] == s.procs[i] && u.procs[i] == t.procs[i];
  }

  /** Over every run, every PML4 made so far has the kernel's upper-half entries, and every upper-half address
      translates alike in all of them. */
  lemma UpperHalfEverywhere(trace: seq<Spaces>, evs: seq<Event>, i: nat, q: nat)
    requires Run(trace, evs) && Inv(trace[0]) && i <= |evs| && q in trace[i].procs
    ensures var s := trace[i];
            && q in s.mem && s.kernel in s.mem && SameUpperHalf(s.mem, q, s.kernel)
            && forall va :: UPPER_HALF_START <= va < TWO_64
                 ==> Translate(s.mem, q, va) == Translate(s.mem, s.kernel, va)
  {
    hide Step, Keeps, KernelOk, TablesFirst, LowerHalfWellFormed, Translate;
    RunKeeps(trace, evs, i, i);
    var s := trace[i];
    var k :| 0 <= k < |s.procs| && s.procs[k] == q;
    assert ProcessOk(s, s.procs[k]);
    forall va | UPPER_HALF_START <= va < TWO_64 ensures Translate(s.mem, q, va) == Translate(s.mem, s.kernel, va) {
      UpperHalfShared(s.mem, q, s.kernel, va);
    }
  }

  /** Over every run, a byte of the stack of a task that exists lies in one and the same frame in the kernel's address
      space and in every process's, at that time and at every later one, also in processes made later; and nowhere is
      it open to user code. */
  lemma StacksEverywhere(trace: seq<Spaces>, evs: seq<Event>, i: nat, j: nat, id: nat, a: nat, q: nat)
    requires Run(trace, evs) && Inv(trace[0]) && i <= j <= |evs| && 1 <= id <= trace[i].stacks && Tasks.InStack(a, id)
    requires q in trace[j].procs
    ensures var t := Translate(trace[i].mem, trace[i].kernel, a);
            && t.Some? && Translate(trace[j].mem, trace[j].kernel, a) == t && Translate(trace[j].mem, q, a) == t
            && Bit(t.value.lo, PRESENT) && Bit(t.value.lo, WRITABLE) && !Bit(t.value.lo, USER)
  {
    hide Step, ProcessOk, TreeReady, Linked, Translate, UserSame, StacksMapped, Tasks.InStack;
    RunKeeps(trace, evs, i, j);
    UpperHalfEverywhere(trace, evs, j, q);
    var k := StackPageOf(id, a);
    StackIsMapped(trace[i].mem, trace[i].kernel, trace[i].stacks, id, k);
    SamePage(trace[i].mem, trace[i].kernel, a, k);
    SamePage(trace[j].mem, trace[j].kernel, a, k);
    StackPath(k);
  }

  /** The page of the region that an address of a stack lies on. */
  lemma StackPageOf(id: nat, a: nat) returns (k: nat)
    requires 1 <= id <= Tasks.MAX_TASK_ID && Tasks.InStack(a, id)
    ensures k < SLOT_PAGES && k / 10 == id && 1 <= k % 10 <= 8
    ensures PageAddress(k) <= a < PageAddress(k) + PAGE_SIZE && UPPER_HALF_START <= a < TWO_64
  {
    k := (a - Tasks.STACK_REGION_BASE) / PAGE_SIZE;
    StackPages(id, a);
    assert k == 10 * (k / 10) + k % 10;
    assert a - Tasks.STACK_REGION_BASE == k * PAGE_SIZE + (a - Tasks.STACK_REGION_BASE) % PAGE_SIZE;
    StackPath(k);
  }

  lemma StackIsMapped(m: Memory, pml4: nat, n: nat, id: nat, k: nat)
    requires StacksMapped(m, pml4, n, 0) && 1 <= id <= n && k < SLOT_PAGES && k / 10 == id && 1 <= k % 10 <= 8
    ensures var t := Translate(m, pml4, PageAddress(k)); t.Some? && t.value.lo == 3
  {
    hide Translate;
    assert IsStackPage(k, n);
  }

  lemma SamePage(m: Memory, pml4: nat, a: nat, k: nat)
    requires k < SLOT_PAGES && PageAddress(k) <= a < PageAddress(k) + PAGE_SIZE
    ensures Translate(m, pml4, a) == Translate(m, pml4, PageAddress(k))
  {
    hide PathOf, WalkTable;
    StackPath(k);
    var base := PageAddress(k);
    assert base == PAGE_SIZE * (base / PAGE_SIZE) by {
      assert base == PAGE_SIZE * (Tasks.STACK_REGION_BASE / PAGE_SIZE + k);
    }
    assert a / PAGE_SIZE == base / PAGE_SIZE;
    assert a / 0x1_0000_0000_0000 == a / PAGE_SIZE / 0x10_0000_0000 == base / 0x1_0000_0000_0000;
    PathIdentifiesPage(a, base);
  }

  /** Over every run, the pages on either side of every stack are unmapped in every address space. */
  lemma GuardsEverywhere(trace: seq<Spaces>, evs: seq<Event>, i: nat, id: nat, q: nat)
    requires Run(trace, evs) && Inv(trace[0]) && i <= |evs| && 1 <= id <= Tasks.MAX_TASK_ID
    requires q == trace[i].kernel || q in trace[i].procs
    ensures Translate(trace[i].mem, q, Tasks.StackBottom(id) - PAGE_SIZE) == None
    ensures Translate(trace[i].mem, q, Tasks.StackTop(id)) == None
  {
    hide Step, ProcessOk, TreeReady, Linked, Translate, UserSame, StacksMapped, Keeps;
    RunKeeps(trace, evs, i, i);
    GuardPages(trace[i].mem, trace[i].kernel, trace[i].stacks, id);
    if q != trace[i].kernel {
      UpperHalfEverywhere(trace, evs, i, q);
    }
  }

  /** Over every run, what the kernel does for other processes and tasks leaves the user memory of a process alone. */
  lemma UserMemoryStays(trace: seq<Spaces>, evs: seq<Event>, i: nat, j: nat, q: nat)
    requires Run(trace, evs) && Inv(trace[0]) && i <= j <= |evs| && q in trace[i].procs
    ensures UserSame(trace[i].mem, trace[j].mem, q)
  {
    hide Step, Inv, UserSame;
    RunKeeps(trace, evs, i, j);
  }

  lemma ChildReads(m: Memory, parent: nat, e: Memory, child: nat, va: nat)
    requires ForkedFrom(m, parent, e, child) && UserSame(m, e, parent) && va < LOWER_HALF_END
    ensures UserByte(e, child, va) == UserByte(m, parent, va)
  {
    hide Translate, TablesFirst, LowerHalfWellFormed;
  }

  /** Load, then fork, at any time and with anything in between: from then on the child reads, at every address a
      segment covers, the byte the image put there, and so does the parent. */
  lemma LoadThenFork(trace: seq<Spaces>, evs: seq<Event>, i: nat, j: nat, k: nat, va: nat)
    requires Run(trace, evs) && Inv(trace[0]) && i < j < k <= |evs| && va < LOWER_HALF_END
    requires evs[i].ProcessLoaded? && evs[j].ProcessForked? && evs[j].parent == evs[i].p
    requires (forall x :: 0 <= x < |evs[i].segs| ==> ProcessLoading.Loadable(evs[i].data, evs[i].segs[x]))
             && ImageByte(evs[i].segs, evs[i].data, va).Some?
    ensures UserByte(trace[k].mem, evs[j].p, va) == ImageByte(evs[i].segs, evs[i].data, va)
    ensures UserByte(trace[k].mem, evs[i].p, va) == ImageByte(evs[i].segs, evs[i].data, va)
  {
    hide Inv, Keeps, SpaceMade, ImageByte, PagesTaken, ForkedFrom, Translate, UserByte, GoodImage, PageFlags;
    var p, c := evs[i].p, evs[j].p;
    assert Step(trace[i], evs[i], trace[i + 1]) && Step(trace[j], evs[j], trace[j + 1]);
    assert trace[i + 1].procs[|trace[i].procs|] == p && trace[j + 1].procs[|trace[j].procs|] == c;
    UserMemoryStays(trace, evs, i + 1, j, p);
    UserMemoryStays(trace, evs, i + 1, k, p);
    UserMemoryStays(trace, evs, j, j + 1, p) by { StillThere(trace, evs, i + 1, j, p); }
    ChildReads(trace[j].mem, p, trace[j + 1].mem, c, va);
    UserMemoryStays(trace, evs, j + 1, k, c);
  }

  lemma StillThere(trace: seq<Spaces>, evs: seq<Event>, i: nat, j: nat, q: nat)
    requires Run(trace, evs) && Inv(trace[0]) && i <= j <= |evs| && q in trace[i].procs
    ensures q in trace[j].procs
  {
    hide Step, Inv, UserSame, KeepsPages;
    RunKeeps(trace, evs, i, j);
    var x :| 0 <= x < |trace[i].procs| && trace[i].procs[x] == q;
    assert trace[j].procs[x] == q;
  }

  // ---- The code ----

  lemma RootsSpared(s: Spaces, r: nat)
    requires Inv(s) && Root(s, r)
    ensures r !in s.supply && ValidSupply(s.mem, s.supply)
  {
    hide ValidSupply, Translate, Tree, TablesFirst, WellFormed;
    if r != s.kernel {
      var i :| 0 <= i < |s.procs| && s.procs[i] == r;
      assert ProcessOk(s, s.procs[i]);
    }
  }

  lemma ParentSpared(s: Spaces, q: nat)
    requires Inv(s) && q in s.procs
    ensures Root(s, q) && TablesFirst(s.mem, s.mem[q], 3, 256) !! Range(s.supply) && LowerHalfWellFormed(s.mem, q)
    ensures q !in Reach(s) && s.kernel in s.mem && s.mem[q][SLOT] == s.mem[s.kernel][SLOT]
  {
    hide Translate, TablesFirst, LowerHalfWellFormed, KernelOk;
    var i :| 0 <= i < |s.procs| && s.procs[i] == q;
    assert ProcessOk(s, s.procs[i]);
  }

  lemma EmptySlot(m: Memory, pml4: nat)
    requires pml4 in m && m[pml4][SLOT] == ZERO
    ensures RegionEmpty(m, pml4)
  {
    hide PathOf;
    forall k | 0 <= k < SLOT_PAGES ensures Translate(m, pml4, PageAddress(k)) == None {
      StackPath(k);
    }
  }

  class KernelMemory {
    const phys: PhysicalMemory
    const space: OffsetPageTable
    var procs: seq<nat>
    var stacks: nat

    ghost function State(): Spaces
      reads this, phys, space
    {
      Spaces(phys.mem, phys.supply, space.pml4, space.owner, procs, stacks)
    }

    /** The mapper of the kernel's own PML4, for the slot of the stacks. */
    ghost predicate Mapper()
      reads this, space
    {
      space.phys == phys && space.lo == SLOT && space.hi == SLOT + 1
    }

    ghost predicate Valid()
      reads this, phys, space
    {
      Mapper() && Inv(State())
    }

    constructor (p: PhysicalMemory, root: nat)
      requires root in p.mem && root !in p.supply && ValidSupply(p.mem, p.supply) && p.mem[root][SLOT] == ZERO
      ensures phys == p && fresh(space) && space.pml4 == root && Mapper() && space.Valid()
      ensures procs == [] && stacks == 0
    {
      phys, procs, stacks := p, [], 0;
      space := new OffsetPageTable(p, root, SLOT, SLOT + 1);
    }

    /** The anchor of the stack region, before any process is made. */
    method Init() returns (r: PageResult)
      requires Mapper() && space.Valid() && procs == [] && stacks == 0
      requires space.pml4 in phys.mem && phys.mem[space.pml4][SLOT] == ZERO
      modifies phys, space
      ensures r == PageDone ==> Valid() && procs == [] && stacks == 0
    {
      hide Owned, Tree, WalkTable, PathOf, StacksMapped, Linked;
      EmptySlot(phys.mem, space.pml4);
      r := InitKernelStackRegion(space);
      OwnersInMemory(phys.mem, space.owner, space.pml4, SLOT, SLOT + 1);
    }

    /** `create_process_pml4`. */
    method CreateSpace(cr3: nat) returns (p: Option<nat>)
      requires Valid() && Root(State(), cr3)
      modifies this, phys
      ensures p.None? <==> old(phys.supply) == []
      ensures p.Some? ==> Valid() && Step(old(State()), SpaceCreated(cr3, p.value), State())
    {
      hide Inv, SpaceMade, ValidSupply;
      ghost var s := State();
      RootsSpared(s, cr3);
      p := phys.CreateProcessPml4(cr3);
      if p.Some? {
        procs := procs + [p.value];
        StepKeeps(s, SpaceCreated(cr3, p.value), State());
      }
    }

    /** `Process::new_from_elf`. */
    method Load(data: seq<Byte>, cr3: nat) returns (r: LoadResult, ghost segs: seq<ProgramHeader>)
      requires Valid() && Root(State(), cr3)
      modifies this, phys
      ensures Sound(old(phys.mem), old(phys.supply), cr3)
      ensures LoadStep(phys.mem, phys.supply, r) == LoadIn(old(phys.mem), old(phys.supply), data, cr3)
      ensures LowerHalfImage(data) ==>
                (r.Loaded? <==>
                 && (exists s :: GoodImage(data, s) && |ImageNodes(s)| <= |old(phys.supply)|)
                 && Canonical(ParseHeader(data).value.entry))
      ensures LowerHalfImage(data) && r.Loaded? ==>
                Valid() && Step(old(State()), ProcessLoaded(cr3, r.pml4, data, segs), State())
      ensures LowerHalfImage(data) && r.Malformed? ==> Valid() && Step(old(State()), LoadFailed, State())
    {
      hide Inv, SpaceMade, ValidSupply, LowerHalfImage, GoodImage, ImageNodes, PagesTaken, HoldsImage, Spent,
           SegmentsError, LoadIn;
      ghost var s := State();
      RootsSpared(s, cr3);
      segs := [];
      r := NewFromElf(phys, data, cr3);
      if r.Loaded? {
        procs := procs + [r.pml4];
      }
      if LowerHalfImage(data) {
        segs := LowerHalfLoaded(s.mem, s.supply, data, cr3, LoadStep(phys.mem, phys.supply, r));
        if r.Loaded? {
          StepKeeps(s, ProcessLoaded(cr3, r.pml4, data, segs), State());
        } else if r.Malformed? {
          StepKeeps(s, LoadFailed, State());
        }
      }
    }

    /** `Process::fork`. */
    method ForkProcess(parent: nat, cr3: nat) returns (child: Option<nat>)
      requires Valid() && parent in procs && Root(State(), cr3)
      modifies this, phys
      ensures parent in old(phys.mem)
      ensures child.Some? <==> 1 + CountFirst(old(phys.mem), old(phys.mem)[parent], 3, 256) <= |old(phys.supply)|
      ensures child.Some? ==> Valid() && Step(old(State()), ProcessForked(parent, child.value), State())
    {
      hide Inv, SpaceMade, ValidSupply, TablesFirst, LowerHalfWellFormed, CountFirst, ForkedFrom, Reach;
      ghost var s := State();
      RootsSpared(s, cr3);
      ParentSpared(s, parent);
      RootsSpared(s, parent);
      child := phys.Fork(parent, cr3);
      if child.Some? {
        procs := procs + [child.value];
        StepKeeps(s, ProcessForked(parent, child.value), State());
      }
    }

    /** The stack of `Task::new`. */
    method AddTask() returns (ok: bool)
      requires Valid() && stacks < Tasks.MAX_TASK_ID
      modifies this, phys, space
      ensures ok ==> Valid() && Step(old(State()), StackAdded, State())
      ensures !ok ==> phys.supply == []
    {
      hide ProcessOk, TreeReady, StacksMapped, Linked, StackDone, SharedByAll;
      ghost var s := State();
      ok := MapKernelStack(space, stacks + 1);
      if ok {
        stacks := stacks + 1;
        StepKeeps(s, StackAdded, State());
      }
    }

    /** The stack of `Task::new_user` for process `q`: every one of its second mappings is refused. */
    method AddUserTask(q: nat) returns (ok: bool, refused: nat)
      requires Valid() && q in procs && stacks < Tasks.MAX_TASK_ID
      modifies this, phys, space
      ensures ok ==> Valid() && Step(old(State()), StackAdded, State()) && refused == 8
      ensures !ok ==> phys.supply == []
    {
      hide ProcessOk, TreeReady, StacksMapped, Linked, StackDone, SharedByAll, LowerHalfWellFormed, TablesFirst;
      ghost var s := State();
      ParentSpared(s, q);
      ok, refused := MapUserTaskStack(space, q, stacks + 1);
      if ok {
        stacks := stacks + 1;
        StepKeeps(s, StackAdded, State());
      }
    }
  }
}
