/** The words of the kernel stacks as they lie in physical frames: what the scheduler's machine reads and writes by
    virtual address is what any CR3 shows of them (`kernel/src/task/mod.rs`, `kernel/src/interrupts/mod.rs`). */
module StackRefinement {
  import opened Words
  import opened Contexts
  import opened PageTables
  import opened CloneTables
  import opened AddressSpaces
  import opened UserMemory
  import opened ProcessLoading
  import opened KernelStacks
  import opened SpaceRuns
  import Tasks = Scheduling

  // ---- Words through the page tables ----

  function PageIndex(a: nat): nat
    requires a >= Tasks.STACK_REGION_BASE
  {
    (a - Tasks.STACK_REGION_BASE) / PAGE_SIZE
  }

  /** The address of a word of the stack of one of the tasks `1..=n`. */
  predicate OnStack(a: nat, n: nat) {
    a >= Tasks.STACK_REGION_BASE && a % 8 == 0 && IsStackPage(PageIndex(a), n)
  }

  lemma OnStackIff(a: nat, n: nat)
    ensures OnStack(a, n) <==> a % 8 == 0 && exists id :: 1 <= id <= n && Tasks.InStack(a, id)
  {
    if a >= Tasks.STACK_REGION_BASE {
      var id := PageIndex(a) / 10;
      StackPages(id, a);
      if a % 8 == 0 && exists id' :: 1 <= id' <= n && Tasks.InStack(a, id') {
        var id' :| 1 <= id' <= n && Tasks.InStack(a, id');
        StackPages(id', a);
      }
    }
  }

  /** The 64-bit word at `a` in the address space of `q`. */
  function StackWord(m: Memory, q: nat, a: nat): Option<nat> {
    match Translate(m, q, a)
    case None => None
    case Some(w) => if w.frame in m then Some(ToNat(m[w.frame][a % PAGE_SIZE / 8])) else None
  }

  /** A 64-bit store at `a` through the page tables of `q`. */
  function StoreWord(m: Memory, q: nat, a: nat, v: nat): (e: Memory)
    ensures e.Keys == m.Keys
  {
    match Translate(m, q, a)
    case None => m
    case Some(w) => if w.frame in m then m[w.frame := m[w.frame][a % PAGE_SIZE / 8 := FromNat(v % TWO_64)]] else m
  }

  /** Stores one after the other. */
  ghost function StoreAll(m: Memory, q: nat, ws: seq<(nat, nat)>): Memory {
    if ws == [] then m
    else
      var k := |ws| - 1;
      StoreWord(StoreAll(m, q, ws[..k]), q, ws[k].0, ws[k].1)
  }

  // ---- One word ----

  lemma PageOf(a: nat, n: nat)
    requires OnStack(a, n) && n <= Tasks.MAX_TASK_ID
    ensures var k := PageIndex(a); k < SLOT_PAGES && PageAddress(k) <= a < PageAddress(k) + PAGE_SIZE
    ensures UPPER_HALF_START <= a < TWO_64
  {
    var k := PageIndex(a);
    assert a - Tasks.STACK_REGION_BASE == PAGE_SIZE * k + (a - Tasks.STACK_REGION_BASE) % PAGE_SIZE;
    assert k == 10 * (k / 10) + k % 10;
    StackPath(k);
  }

  /** The frame behind a stack address: a page of the kernel's tree. */
  lemma StackFrame(t: Spaces, a: nat)
    requires KernelOk(t) && OnStack(a, t.stacks)
    ensures var at := Translate(t.mem, t.kernel, a);
            && at.Some? && at.value.frame in t.owner && at.value.frame in t.mem
            && t.owner[at.value.frame] == PathOf(PageAddress(PageIndex(a)))
  {
    hide Owned, Tree, ValidSupply, Linked, PathOf, WalkTable;
    var k := PageIndex(a);
    PageOf(a, t.stacks);
    assert Translate(t.mem, t.kernel, PageAddress(k)).Some?;
    SamePage(t.mem, t.kernel, a, k);
    PageFrame(t.mem, t.owner, t.kernel, k);
    OwnersInMemory(t.mem, t.owner, t.kernel, SLOT, SLOT + 1);
  }

  /** Every address space sees it in the same frame. */
  lemma SeenByAll(t: Spaces, q: nat, a: nat)
    requires Inv(t) && Root(t, q) && OnStack(a, t.stacks)
    ensures Translate(t.mem, q, a) == Translate(t.mem, t.kernel, a)
    ensures StackWord(t.mem, q, a) == StackWord(t.mem, t.kernel, a)
  {
    hide Translate, TreeReady, StacksMapped, Linked, Separate, LowerHalfWellFormed;
    PageOf(a, t.stacks);
    if q != t.kernel {
      var i :| 0 <= i < |t.procs| && t.procs[i] == q;
      assert ProcessOk(t, t.procs[i]);
      UpperHalfShared(t.mem, q, t.kernel, a);
    }
  }

  /** Two words of the stacks in one place of one frame are the same word. */
  lemma WordPlace(t: Spaces, a: nat, b: nat)
    requires KernelOk(t) && OnStack(a, t.stacks) && OnStack(b, t.stacks) && a != b
    ensures Translate(t.mem, t.kernel, a).Some? && Translate(t.mem, t.kernel, b).Some?
    ensures Translate(t.mem, t.kernel, a).value.frame != Translate(t.mem, t.kernel, b).value.frame
            || a % PAGE_SIZE / 8 != b % PAGE_SIZE / 8
  {
    hide KernelOk, Translate, PathOf;
    StackFrame(t, a);
    StackFrame(t, b);
    KernelBounds(t);
    PageOf(a, t.stacks);
    PageOf(b, t.stacks);
    if PageIndex(a) == PageIndex(b) {
      OnePage(a, b);
    } else {
      DistinctPages(PageIndex(a), PageIndex(b));
    }
  }

  lemma KernelBounds(t: Spaces)
    requires KernelOk(t)
    ensures t.stacks <= Tasks.MAX_TASK_ID && t.kernel in t.mem
  {}

  /** A word of the region by its page and its place in the page. */
  lemma InPage(a: nat)
    requires a >= Tasks.STACK_REGION_BASE && a % 8 == 0
    ensures a == Tasks.STACK_REGION_BASE + PAGE_SIZE * PageIndex(a) + 8 * (a % PAGE_SIZE / 8)
  {
    var d := a - Tasks.STACK_REGION_BASE;
    assert a == PAGE_SIZE * (Tasks.STACK_REGION_BASE / PAGE_SIZE + d / PAGE_SIZE) + d % PAGE_SIZE;
    assert a % PAGE_SIZE == d % PAGE_SIZE;
    assert a % PAGE_SIZE % 8 == 0;
  }

  lemma OnePage(a: nat, b: nat)
    requires a >= Tasks.STACK_REGION_BASE && b >= Tasks.STACK_REGION_BASE && PageIndex(a) == PageIndex(b)
    requires a % 8 == 0 && b % 8 == 0 && a != b
    ensures a % PAGE_SIZE / 8 != b % PAGE_SIZE / 8
  {
    InPage(a);
    InPage(b);
  }

  /** Writing a page of the kernel's tree keeps every translation of the slot, and so all the rest. */
  lemma PageStored(t: Spaces, f: nat, u: Table)
    requires Inv(t) && f in t.owner && f in t.mem && |t.owner[f]| == 4
    ensures var t' := t.(mem := t.mem[f := u]);
            && Inv(t') && Keeps(t, t')
            && forall k :: 0 <= k < SLOT_PAGES ==>
                 Translate(t'.mem, t.kernel, PageAddress(k)) == Translate(t.mem, t.kernel, PageAddress(k))
  {
    hide ProcessOk, Translate, Owned, Tree, ValidSupply, Linked, UserSame, Reach;
    var t' := t.(mem := t.mem[f := u]);
    OwnersInMemory(t.mem, t.owner, t.kernel, SLOT, SLOT + 1);
    forall k | 0 <= k < SLOT_PAGES
      ensures Translate(t'.mem, t.kernel, PageAddress(k)) == Translate(t.mem, t.kernel, PageAddress(k))
    {
      PageStoredWalk(t, f, u, k);
    }
    PageStoredTree(t, f, u);
    LinkedKept(t.mem, t'.mem, t.kernel, SLOT, STACK_FLAGS);
    InReach(t, f);
    OldProcesses(t, t');
  }

  lemma InReach(t: Spaces, f: nat)
    requires f in t.owner
    ensures f in Reach(t) && forall t': Spaces :: t'.owner == t.owner && t'.supply == t.supply ==> Reach(t') == Reach(t)
  {}

  lemma PageStoredWalk(t: Spaces, f: nat, u: Table, k: nat)
    requires KernelOk(t) && f in t.owner && f in t.mem && |t.owner[f]| == 4 && k < SLOT_PAGES
    ensures Translate(t.mem[f := u], t.kernel, PageAddress(k)) == Translate(t.mem, t.kernel, PageAddress(k))
  {
    hide Owned, Tree, ValidSupply, Linked, PathOf, WalkTable, StacksMapped;
    StackPath(k);
    RootWalk(t.mem, t.owner, t.kernel, SLOT, SLOT + 1, PathOf(PageAddress(k)));
    PageWriteWalk(t.mem, t.owner, t.kernel, SLOT, SLOT + 1, f, u, t.kernel, PathOf(PageAddress(k)));
  }

  lemma PageStoredTree(t: Spaces, f: nat, u: Table)
    requires KernelOk(t) && f in t.owner && f in t.mem && |t.owner[f]| == 4
    ensures TreeReady(t.mem[f := u], t.supply, t.owner, t.kernel, SLOT, SLOT + 1)
  {
    hide Tree, Linked, StacksMapped;
    PageWriteOwned(t.mem, t.owner, t.kernel, SLOT, SLOT + 1, f, u);
    OwnersInMemory(t.mem, t.owner, t.kernel, SLOT, SLOT + 1);
    PageWriteTree(t.mem, t.owner, f, u);
  }

  /** A store to a word of a stack, through any address space: that word changes, in all of them, and no other; the user
      memory of every process and every translation of the slot are as before. */
  lemma WordStored(t: Spaces, q: nat, a: nat, v: nat)
    requires Inv(t) && Root(t, q) && OnStack(a, t.stacks)
    ensures var t' := t.(mem := StoreWord(t.mem, q, a, v));
            && Inv(t') && Keeps(t, t') && Root(t', q)
            && forall b: nat :: OnStack(b, t.stacks) ==>
                 StackWord(t'.mem, t.kernel, b) == if b == a then Some(v % TWO_64) else StackWord(t.mem, t.kernel, b)
  {
    hide Inv, KernelOk, Keeps, Translate;
    InvParts(t);
    SeenByAll(t, q, a);
    StackFrame(t, a);
    KernelBounds(t);
    var f, i := Translate(t.mem, t.kernel, a).value.frame, a % PAGE_SIZE / 8;
    var u: Table := t.mem[f][i := FromNat(v % TWO_64)];
    PageStored(t, f, u);
    var t' := t.(mem := t.mem[f := u]);
    forall b: nat | OnStack(b, t.stacks)
      ensures StackWord(t'.mem, t.kernel, b) == if b == a then Some(v % TWO_64) else StackWord(t.mem, t.kernel, b)
    {
      PageOf(b, t.stacks);
      SamePage(t.mem, t.kernel, b, PageIndex(b));
      SamePage(t'.mem, t.kernel, b, PageIndex(b));
      StackFrame(t, b);
      if b != a {
        WordPlace(t, a, b);
      }
    }
  }

  lemma InvParts(t: Spaces)
    requires Inv(t)
    ensures KernelOk(t)
  {}

  // ---- Many words ----

  ghost predicate AllOnStack(ws: seq<(nat, nat)>, n: nat) {
    forall i :: 0 <= i < |ws| ==> OnStack(ws[i].0, n)
  }

  /** The last value that the stores give the word at `b`. */
  ghost function LastStored(ws: seq<(nat, nat)>, b: nat): Option<nat> {
    if ws == [] then None
    else if ws[|ws| - 1].0 == b then Some(ws[|ws| - 1].1)
    else LastStored(ws[..|ws| - 1], b)
  }

  /** Stores to words of the stacks, through one address space. */
  lemma {:induction false} WordsStored(t: Spaces, q: nat, ws: seq<(nat, nat)>)
    requires Inv(t) && Root(t, q) && AllOnStack(ws, t.stacks)
    ensures var t' := t.(mem := StoreAll(t.mem, q, ws));
            && Inv(t') && Keeps(t, t') && Root(t', q)
            && forall b: nat :: OnStack(b, t.stacks) ==>
                 StackWord(t'.mem, t.kernel, b)
                 == if LastStored(ws, b).Some? then Some(LastStored(ws, b).value % TWO_64)
                    else StackWord(t.mem, t.kernel, b)
  {
    hide Inv, Keeps, StackWord, StoreWord, OnStack;
    if ws == [] {
      KeepsRefl(t);
      assert t.(mem := t.mem) == t;
    } else {
      var k := |ws| - 1;
      WordsStored(t, q, ws[..k]);
      var t1 := t.(mem := StoreAll(t.mem, q, ws[..k]));
      WordStored(t1, q, ws[k].0, ws[k].1);
      KeepsTwice(t, t1, t.(mem := StoreAll(t.mem, q, ws)));
    }
  }

  // ---- The machine's words and the frames behind them ----

  /** What the machine has at stack addresses is what the frames hold, as 64-bit words. */
  ghost predicate Backs(t: Spaces, words: StackMem) {
    forall a :: a in words && OnStack(a, t.stacks) ==> StackWord(t.mem, t.kernel, a) == Some(words[a] % TWO_64)
  }

  /** The stores that take the stacks from `m` to `e`: every word that changes is among them, and each gives a word the
      value it has in `e`. */
  ghost predicate Writes(ws: seq<(nat, nat)>, m: StackMem, e: StackMem, n: nat) {
    && AllOnStack(ws, n)
    && (forall i :: 0 <= i < |ws| ==> ws[i].0 in e && e[ws[i].0] == ws[i].1)
    && (forall a :: a in e && OnStack(a, n) && LastStored(ws, a).None? ==> a in m && e[a] == m[a])
  }

  lemma {:induction false} LastIsThere(ws: seq<(nat, nat)>, b: nat)
    requires LastStored(ws, b).Some?
    ensures exists i :: 0 <= i < |ws| && ws[i] == (b, LastStored(ws, b).value)
  {
    var k := |ws| - 1;
    if ws[k].0 == b {
      assert ws[k] == (b, LastStored(ws, b).value);
    } else {
      LastIsThere(ws[..k], b);
      var i :| 0 <= i < k && ws[..k][i] == (b, LastStored(ws, b).value);
      assert ws[i] == ws[..k][i];
    }
  }

  lemma WritesBack(t: Spaces, q: nat, ws: seq<(nat, nat)>, m: StackMem, e: StackMem)
    requires Inv(t) && Root(t, q) && Backs(t, m) && Writes(ws, m, e, t.stacks)
    ensures var t' := t.(mem := StoreAll(t.mem, q, ws)); Inv(t') && Keeps(t, t') && Backs(t', e)
  {
    hide Inv, Keeps, StackWord, OnStack, StoreAll, LastStored;
    WordsStored(t, q, ws);
    var t' := t.(mem := StoreAll(t.mem, q, ws));
    forall a | a in e && OnStack(a, t.stacks) ensures StackWord(t'.mem, t.kernel, a) == Some(e[a] % TWO_64) {
      if LastStored(ws, a).Some? {
        LastIsThere(ws, a);
      }
    }
  }

  // ---- Steps of the two together ----

  datatype Joint = Joint(s: Tasks.Machine, t: Spaces)

  /** An event of the machine with the stores it makes through the CR3 in force; a new task, whose stack is mapped first
      and holds what its frames held; or a step of the address spaces. */
  datatype JointEvent =
    | MachineStep(e: Tasks.Event, ws: seq<(nat, nat)>)
    | TaskMade(e: Tasks.Event, mapped: Spaces, ws: seq<(nat, nat)>)
    | SpaceStep(space: Event)

  ghost predicate Allowed(s: Tasks.Machine, e: Tasks.Event) {
    Tasks.Legal(s, e) && Tasks.HasFrame(s, e)
  }

  ghost predicate JointStep(x: Joint, ev: JointEvent, y: Joint) {
    match ev
    case MachineStep(e, ws) =>
      && !e.Spawn? && Allowed(x.s, e) && y.s == Tasks.Step(x.s, e)
      && Writes(ws, x.s.mem, y.s.mem, x.t.stacks)
      && y.t == x.t.(mem := StoreAll(x.t.mem, x.s.cpu.cr3, ws))
    case TaskMade(e, mapped, ws) =>
      && e.Spawn? && Root(x.t, e.pml4) && Allowed(x.s, e) && y.s == Tasks.Step(x.s, e)
      && Step(x.t, StackAdded, mapped) && Backs(mapped, e.stale)
      && Writes(ws, x.s.mem + e.stale, y.s.mem, mapped.stacks)
      && y.t == mapped.(mem := StoreAll(mapped.mem, x.s.cpu.cr3, ws))
    case SpaceStep(e) => y.s == x.s && !e.StackAdded? && Step(x.t, e, y.t)
  }

  /** The page tables that the machine may come to use. */
  ghost function Pmls(s: Tasks.Machine): set<nat> {
    {s.cpu.cr3} + (set t | t in s.sched.queue :: t.pml4)
    + if s.sched.current.Some? then {s.sched.current.value.pml4} else {}
  }

  /** The machine and the address spaces belong together. */
  ghost predicate JointOk(x: Joint) {
    && Tasks.Inv(x.s) && Inv(x.t) && x.s.nextId == x.t.stacks + 1 && Backs(x.t, x.s.mem)
    && forall q :: q in Pmls(x.s) ==> Root(x.t, q)
  }

  /** No step but the making of a task brings in page tables. */
  lemma PmlsKept(s: Tasks.Machine, e: Tasks.Event)
    requires Allowed(s, e)
    ensures Pmls(Tasks.Step(s, e)) <= Pmls(s) + if e.Spawn? then {e.pml4} else {}
    ensures Tasks.Step(s, e).nextId == s.nextId + if e.Spawn? then 1 else 0
  {
    if e.Tick? {
      TickPmls(s, e.lockFree);
    } else {
      hide SaveFrame, FrameAt, FramePresent, Pushed, Tasks.InitialContext, Tasks.TimerTick;
    }
  }

  lemma TickPmls(s: Tasks.Machine, lockFree: bool)
    requires Tasks.EntryTop(s.cpu) >= FRAME_SIZE && Tasks.TickRestores(s, lockFree)
    ensures Pmls(Tasks.Interrupt(s, lockFree)) <= Pmls(s) && Tasks.Interrupt(s, lockFree).nextId == s.nextId
  {
    hide SaveFrame, FrameAt, FramePresent, Tasks.TickRestores;
    var s' := Tasks.Interrupt(s, lockFree);
    forall t | t in s'.sched.queue ensures t.pml4 in Pmls(s) {}
  }

  // ---- What the steps keep ----

  lemma RootStays(t: Spaces, t': Spaces, q: nat)
    requires Inv(t') && Keeps(t, t') && Root(t, q)
    ensures Root(t', q)
  {
    hide TreeReady, StacksMapped, Linked, Reach, TablesFirst, Translate, LowerHalfWellFormed, UserSame, KeepsPages;
    if q in t.procs {
      var i :| 0 <= i < |t.procs| && t.procs[i] == q;
      assert t'.procs[..|t.procs|][i] == t'.procs[i];
      assert t'.procs[i] == q && ProcessOk(t', t'.procs[i]);
    }
  }

  /** The pages of the stacks hold what they held. */
  lemma PageContents(t: Spaces, e: Event, t': Spaces, f: nat)
    requires Inv(t) && Step(t, e, t') && f in t.owner && f in t.mem && |t.owner[f]| == 4
    ensures f in t'.mem && t'.mem[f] == t.mem[f]
  {
    hide ProcessOk, Owned, Tree, ValidSupply, StacksMapped, Linked, HoldsImage, GoodImage, PagesTaken, ForkedFrom,
         LowerHalfWellFormed, TablesFirst, KeepsPages;
  }

  /** So does every word of them, in whatever address space. */
  lemma WordKept(t: Spaces, e: Event, t': Spaces, a: nat)
    requires Inv(t) && Step(t, e, t') && OnStack(a, t.stacks)
    ensures StackWord(t'.mem, t'.kernel, a) == StackWord(t.mem, t.kernel, a)
  {
    hide Inv, KernelOk, Step, Translate, PathOf;
    InvParts(t);
    KernelBounds(t);
    StackFrame(t, a);
    PageOf(a, t.stacks);
    StepKeeps(t, e, t');
    SamePage(t.mem, t.kernel, a, PageIndex(a));
    SamePage(t'.mem, t.kernel, a, PageIndex(a));
    StackPath(PageIndex(a));
    PageContents(t, e, t', Translate(t.mem, t.kernel, a).value.frame);
  }

  lemma SpaceStepBacks(t: Spaces, e: Event, t': Spaces, words: StackMem)
    requires Inv(t) && Step(t, e, t') && Backs(t, words) && t'.stacks == t.stacks
    ensures Backs(t', words)
  {
    hide Inv, Step, StackWord, OnStack;
    forall a | a in words && OnStack(a, t'.stacks) ensures StackWord(t'.mem, t'.kernel, a) == Some(words[a] % TWO_64) {
      WordKept(t, e, t', a);
    }
  }

  /** The stack of a new task: its words are those its frames hold, the others are as they were. */
  lemma NewStackBacks(x: Joint, e: Tasks.Event, mapped: Spaces)
    requires JointOk(x) && e.Spawn? && Tasks.Legal(x.s, e) && Step(x.t, StackAdded, mapped) && Backs(mapped, e.stale)
    ensures Backs(mapped, x.s.mem + e.stale)
  {
    hide Inv, StackWord, Tasks.Inv, StackDone;
    var words := x.s.mem + e.stale;
    forall a | a in words && OnStack(a, mapped.stacks)
      ensures StackWord(mapped.mem, mapped.kernel, a) == Some(words[a] % TWO_64)
    {
      if a !in e.stale {
        assert OnStack(a, x.t.stacks) by {
          StackPages(x.s.nextId, a);
        }
        WordKept(x.t, StackAdded, mapped, a);
      }
    }
  }

  lemma JointKeeps(x: Joint, ev: JointEvent, y: Joint)
    requires JointOk(x) && JointStep(x, ev, y)
    ensures JointOk(y)
  {
    hide Inv, Tasks.Inv, Tasks.Legal, Tasks.HasFrame, Tasks.Step, Step, Backs, Writes, StoreAll, Keeps, Pmls, Root;
    match ev
    case MachineStep(e, ws) =>
      Tasks.StepKeeps(x.s, e);
      Cr3Used(x);
      WritesBack(x.t, x.s.cpu.cr3, ws, x.s.mem, y.s.mem);
      JointRoots(x, e, y);
    case TaskMade(e, mapped, ws) =>
      Tasks.StepKeeps(x.s, e);
      Cr3Used(x);
      StepKeeps(x.t, StackAdded, mapped);
      OneMoreStack(x.t, mapped);
      RootStays(x.t, mapped, x.s.cpu.cr3);
      NewStackBacks(x, e, mapped);
      WritesBack(mapped, x.s.cpu.cr3, ws, x.s.mem + e.stale, y.s.mem);
      KeepsTwice(x.t, mapped, y.t);
      JointRoots(x, e, y);
    case SpaceStep(e) =>
      StepKeeps(x.t, e, y.t);
      SameStacks(x.t, e, y.t);
      SpaceStepBacks(x.t, e, y.t, x.s.mem);
      forall q | q in Pmls(y.s) ensures Root(y.t, q) {
        RootStays(x.t, y.t, q);
      }
  }

  lemma Cr3Used(x: Joint)
    requires JointOk(x)
    ensures Root(x.t, x.s.cpu.cr3)
  {
    hide Inv, Tasks.Inv, Backs, Root;
    assert x.s.cpu.cr3 in Pmls(x.s);
  }

  lemma OneMoreStack(t: Spaces, t': Spaces)
    requires Step(t, StackAdded, t')
    ensures t'.stacks == t.stacks + 1
  {
    hide StackDone;
  }

  lemma SameStacks(t: Spaces, e: Event, t': Spaces)
    requires Step(t, e, t') && !e.StackAdded?
    ensures t'.stacks == t.stacks
  {
    hide SpaceMade, PagesTaken, GoodImage, HoldsImage, ForkedFrom, Spent, Root;
  }

  lemma JointRoots(x: Joint, e: Tasks.Event, y: Joint)
    requires JointOk(x) && Allowed(x.s, e) && y.s == Tasks.Step(x.s, e) && Inv(y.t) && Keeps(x.t, y.t)
    requires e.Spawn? ==> Root(x.t, e.pml4)
    ensures forall q :: q in Pmls(y.s) ==> Root(y.t, q)
    ensures y.s.nextId == x.s.nextId + if e.Spawn? then 1 else 0
  {
    hide Inv, Tasks.Inv, Tasks.Legal, Tasks.HasFrame, Tasks.Step, Backs, Keeps, Pmls, Root;
    PmlsKept(x.s, e);
    forall q | q in Pmls(y.s) ensures Root(y.t, q) {
      RootStays(x.t, y.t, q);
    }
  }

  // ---- Runs ----

  ghost predicate JointRun(trace: seq<Joint>, evs: seq<JointEvent>) {
    |trace| == |evs| + 1 && forall i :: 0 <= i < |evs| ==> JointStep(trace[i], evs[i], trace[i + 1])
  }

  /** Boot code with no task yet, and address spaces with no stack. */
  lemma JointStart(s: Tasks.Machine, t: Spaces)
    requires Tasks.Booted(s) && Inv(t) && t.stacks == 0 && Root(t, s.cpu.cr3)
    ensures JointOk(Joint(s, t))
  {
    hide Inv, StackWord;
  }

  lemma {:induction false} JointRunKeeps(trace: seq<Joint>, evs: seq<JointEvent>, i: nat)
    requires JointRun(trace, evs) && JointOk(trace[0]) && i <= |evs|
    ensures JointOk(trace[i])
  {
    hide JointOk, JointStep;
    if i > 0 {
      JointRunKeeps(trace, evs, i - 1);
      JointKeeps(trace[i - 1], evs[i - 1], trace[i]);
    }
  }

  /** Over every run of the scheduler and the address spaces together: every word of the stack of every task, read
      through the CR3 in force or through any other address space, is the word of the machine. */
  lemma StacksRefined(trace: seq<Joint>, evs: seq<JointEvent>, i: nat, id: nat, a: nat, q: nat)
    requires JointRun(trace, evs) && JointOk(trace[0]) && i <= |evs|
    requires 1 <= id < trace[i].s.nextId && Tasks.InStack(a, id) && a % 8 == 0
    requires Root(trace[i].t, q) || q == trace[i].s.cpu.cr3
    ensures a in trace[i].s.mem && StackWord(trace[i].t.mem, q, a) == Some(trace[i].s.mem[a] % TWO_64)
  {
    hide JointStep, StackWord, Inv;
    JointRunKeeps(trace, evs, i);
    var x := trace[i];
    Cr3Used(x);
    assert Tasks.StackPresent(x.s.mem, id);
    OnStackIff(a, x.t.stacks);
    SeenByAll(x.t, q, a);
  }

  /** Every step of the machine but the making of a task has such stores. */
  lemma StoresExist(x: Joint, e: Tasks.Event) returns (ws: seq<(nat, nat)>, y: Joint)
    requires JointOk(x) && !e.Spawn? && Tasks.Legal(x.s, e)
    ensures JointStep(x, MachineStep(e, ws), y)
  {
    hide Inv, Tasks.Inv, Tasks.Legal, Tasks.HasFrame, Tasks.Step, Backs, StoreAll, Pmls, Root, OnStack;
    Tasks.StepKeeps(x.s, e);
    var s' := Tasks.Step(x.s, e);
    ws := ListWords(s'.mem, x.t.stacks, s'.mem.Keys);
    y := Joint(s', x.t.(mem := StoreAll(x.t.mem, x.s.cpu.cr3, ws)));
  }

  lemma {:induction false} ListWords(m: StackMem, n: nat, keys: set<nat>) returns (ws: seq<(nat, nat)>)
    requires keys <= m.Keys
    ensures AllOnStack(ws, n) && forall i :: 0 <= i < |ws| ==> ws[i].0 in m && m[ws[i].0] == ws[i].1
    ensures forall a :: a in keys && OnStack(a, n) ==> LastStored(ws, a).Some?
    decreases |keys|
  {
    hide OnStack;
    if keys == {} {
      ws := [];
    } else {
      var a :| a in keys;
      var rest := ListWords(m, n, keys - {a});
      ws := if OnStack(a, n) then rest + [(a, m[a])] else rest;
      assert (rest + [(a, m[a])])[..|rest|] == rest;
    }
  }
}
