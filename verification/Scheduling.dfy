/** The preemptive scheduler together with the interrupt, system-call and context-switch code,
    as one machine. */
module Scheduling {
  import opened Words
  import opened Contexts

  // ---- Kernel stacks ----

  const STACK_REGION_BASE: nat := 0xFFFF_FE00_0000_0000
  const STACK_STRIDE: nat := 0xA000
  const STACK_SIZE: nat := 0x8000
  const GUARD_SIZE: nat := 0x1000
  const MAX_TASK_ID: nat := 13_421_771

  function StackBottom(id: nat): nat {
    STACK_REGION_BASE + id * STACK_STRIDE + GUARD_SIZE
  }

  function StackTop(id: nat): nat {
    StackBottom(id) + STACK_SIZE
  }

  predicate InStack(a: nat, id: nat) {
    StackBottom(id) <= a < StackTop(id)
  }

  // ---- State ----

  /** The address of the per-CPU block; any non-zero address would do. */
  const PER_CPU: nat := 0xFFFF_FFFF_8010_0000
  const USER_GS: nat := 0

  datatype TaskState = Ready | Running | Blocked | Zombie

  datatype Task = Task(id: nat, stackPtr: nat, stackTop: nat, pml4: nat, state: TaskState)

  datatype Sched = Sched(queue: seq<Task>, current: Option<Task>, currentId: Option<nat>, taskCount: nat)

  /** `ctx` is the register state of the code that runs now; `cpuStack` and `userRsp` are the two
      words of the per-CPU block. */
  datatype Cpu = Cpu(ctx: Context, gs: nat, kernelGs: nat, cr3: nat, rsp0: nat, cpuStack: nat, userRsp: nat)

  datatype Mode = Live | Halted | Crashed

  /** `retired` and `calls` are history: the tasks that were dropped, and for every task inside a
      system call the user context it will go back to. */
  datatype Machine = Machine(cpu: Cpu, mem: StackMem, sched: Sched, ticks: nat, nextId: nat,
                             retired: set<nat>, calls: map<nat, Context>, mode: Mode)

  function SwapGs(cpu: Cpu): Cpu {
    cpu.(gs := cpu.kernelGs, kernelGs := cpu.gs)
  }

  function SwapIf(cpu: Cpu, cond: bool): Cpu {
    if cond then SwapGs(cpu) else cpu
  }

  /** `Task::switch_to`: TSS, per-CPU stack and address space of the next task. */
  function SwitchTo(cpu: Cpu, t: Task): Cpu {
    cpu.(rsp0 := t.stackTop, cpuStack := t.stackTop, cr3 := t.pml4)
  }

  // ---- The scheduler proper ----

  datatype TickResult =
    | Resume(sched: Sched, ptr: nat, next: Option<Task>, dropped: Option<nat>)
    | Halt(sched: Sched, dropped: Option<nat>)

  /** `timer_tick`; `lockFree` tells whether `try_lock` succeeds. */
  function TimerTick(sc: Sched, p: nat, lockFree: bool): TickResult {
    if !lockFree || sc.current.None? then Resume(sc, p, None, None)
    else
      var prev := sc.current.value.(stackPtr := p);
      if sc.queue != [] then
        var next := sc.queue[0].(state := Running);
        var rest := sc.queue[1..] + if prev.state.Running? then [prev.(state := Ready)] else [];
        Resume(Sched(rest, Some(next), Some(next.id), sc.taskCount), next.stackPtr, Some(next),
               if prev.state.Running? then None else Some(prev.id))
      else if prev.state.Zombie? then
        Halt(sc.(current := None), Some(prev.id))
      else
        Resume(sc.(current := Some(prev), currentId := Some(prev.id)), p, None, None)
  }

  function Dropped(r: TickResult): set<nat> {
    if r.dropped.Some? then {r.dropped.value} else {}
  }

  // ---- Entry and exit code ----

  function Align16(a: nat): nat {
    a / 16 * 16
  }

  /** Where the CPU starts pushing the interrupt frame: the TSS stack from user mode, else the
      current stack, aligned. */
  function EntryTop(cpu: Cpu): nat {
    if FromUser(cpu.ctx) then cpu.rsp0 else Align16(cpu.ctx.rsp)
  }

  /** The handler's own context: ring 0, below the saved frame. */
  function InHandler(c: Context, p: nat): Context {
    c.(cs := 0x08, ss := 0, rsp := p)
  }

  /** The timer or yield interrupt: save, tick, switch stacks, restore. */
  ghost function Interrupt(s: Machine, lockFree: bool): Machine
    requires EntryTop(s.cpu) >= FRAME_SIZE && TickRestores(s, lockFree)
  {
    var top := EntryTop(s.cpu);
    var mem := SaveFrame(s.mem, top, s.cpu.ctx);
    var entered := SwapIf(s.cpu, FromUser(s.cpu.ctx));
    match TimerTick(s.sched, top - FRAME_SIZE, lockFree)
    case Halt(sched, _) => s.(cpu := entered.(ctx := InHandler(s.cpu.ctx, top - FRAME_SIZE)), mem := mem,
                              sched := sched, ticks := s.ticks + 1, mode := Halted,
                              retired := s.retired + Dropped(TimerTick(s.sched, top - FRAME_SIZE, lockFree)))
    case Resume(sched, p, next, _) =>
      var switched := if next.Some? then SwitchTo(entered, next.value) else entered;
      var ctx := FrameAt(mem, p);
      s.(cpu := SwapIf(switched.(ctx := ctx), FromUser(ctx)), mem := mem, sched := sched, ticks := s.ticks + 1,
         retired := s.retired + Dropped(TimerTick(s.sched, top - FRAME_SIZE, lockFree)))
  }

  /** The frame the interrupt will restore is there. */
  ghost predicate TickRestores(s: Machine, lockFree: bool) {
    var top := EntryTop(s.cpu);
    top >= FRAME_SIZE &&
    var r := TimerTick(s.sched, top - FRAME_SIZE, lockFree);
    r.Resume? ==> FramePresent(SaveFrame(s.mem, top, s.cpu.ctx), r.ptr)
  }

  /** The user context a system call returns to, but for its result: `syscall` leaves the return
      address in rcx and the flags in r11. */
  function UserCall(c: Context): Context {
    c.(regs := c.regs[RCX := c.rip][R11 := c.rflags], cs := 0x2B, ss := 0x23)
  }

  /** `syscall_entry` up to the dispatch call. Its first access to the per-CPU block is at gs:[8].
      With the user's GS base, which is zero, that is address 8; the model takes it to be unmapped,
      so that the access faults in the kernel. An ELF segment at virtual address 0 would map it, and
      the entry would then store the user's rsp there and go on. */
  ghost function EnterCall(s: Machine): Machine {
    var cpu := SwapGs(s.cpu);
    if cpu.gs != PER_CPU then s.(mode := Crashed)
    else
      var saved := UserCall(s.cpu.ctx);
      var top := cpu.cpuStack;
      var mem := SaveFrame(s.mem, top, saved);
      var p := if top >= FRAME_SIZE then top - FRAME_SIZE else 0;
      var ctx := s.cpu.ctx.(regs := saved.regs[RDI := p], cs := 0x08, ss := 0x10, rsp := p);
      s.(cpu := cpu.(userRsp := s.cpu.ctx.rsp, ctx := ctx), mem := mem,
         calls := if s.sched.current.Some? then s.calls[s.sched.current.value.id := s.cpu.ctx] else s.calls)
  }

  /** `syscall_entry` from the return of the dispatch call on, with the result in rax. */
  ghost function LeaveCall(s: Machine): Machine
    requires FramePresent(s.mem, s.cpu.ctx.rsp) && s.sched.current.Some?
  {
    var p := s.cpu.ctx.rsp;
    var mem := s.mem[p + 14 * 8 := s.cpu.ctx.regs[RAX]];
    s.(cpu := SwapGs(s.cpu.(ctx := FrameAt(mem, p))), mem := mem, calls := s.calls - {s.sched.current.value.id})
  }

  /** The first context of a new task. */
  function InitialContext(user: bool, entry: nat, userStack: nat, top: nat): Context {
    Context(seq(15, _ => 0), entry, if user then 0x2B else 0x08, 0x202, if user then userStack else top,
            if user then 0x23 else 0x10)
  }

  // ---- Steps ----

  datatype Event =
    | Tick(lockFree: bool)
    | Spawn(user: bool, entry: nat, userStack: nat, pml4: nat, stale: StackMem)
    | Exit
    | Compute(ctx: Context, mem: StackMem)
    | SyscallEnter
    | SyscallLeave
    | Fault
    | Start

  /** The part of a task's stack its own code may use: not the frame of a system call it is in. */
  function Limit(s: Machine, id: nat): nat {
    if id in s.calls then StackTop(id) - FRAME_SIZE else StackTop(id)
  }

  ghost predicate Untouched(m: StackMem, e: StackMem, id: nat) {
    forall a :: a in m && InStack(a, id) ==> a in e && e[a] == m[a]
  }

  /** From `m` to `e` only words of `id`'s stack below `limit` changed. */
  ghost predicate OnlyBelow(m: StackMem, e: StackMem, id: nat, limit: nat) {
    e.Keys == m.Keys && forall a :: a in m && !(InStack(a, id) && a < limit) ==> e[a] == m[a]
  }

  ghost predicate StackPresent(m: StackMem, id: nat) {
    forall a {:trigger a in m} :: InStack(a, id) && a % 8 == 0 ==> a in m
  }

  /** What the hardware and well-behaved code can do next. Code keeps its ring; user code cannot
      touch kernel stacks, and kernel code of a task only touches its own, with room for a frame
      when an interrupt comes. */
  ghost predicate Legal(s: Machine, e: Event) {
    s.mode == Live &&
    match e
    case Tick(_) =>
      if s.sched.current.Some? then StackBottom(s.sched.current.value.id) + FRAME_SIZE <= EntryTop(s.cpu)
      else FRAME_SIZE <= EntryTop(s.cpu) <= STACK_REGION_BASE && FramePresent(s.mem, EntryTop(s.cpu) - FRAME_SIZE)
    case Spawn(_, _, _, _, stale) =>
      && !FromUser(s.cpu.ctx) && s.nextId <= MAX_TASK_ID
      && StackPresent(stale, s.nextId) && (forall a :: a in stale ==> InStack(a, s.nextId))
    case Exit => !FromUser(s.cpu.ctx) && s.sched.current.Some?
    case Compute(ctx, mem) =>
      && ctx.cs == s.cpu.ctx.cs
      && if FromUser(ctx) || s.sched.current.None? then mem == s.mem
         else
           var id := s.sched.current.value.id;
           OnlyBelow(s.mem, mem, id, Limit(s, id)) && StackBottom(id) <= ctx.rsp <= Limit(s, id)
    case SyscallEnter => FromUser(s.cpu.ctx) && s.sched.current.Some?
    case SyscallLeave =>
      && !FromUser(s.cpu.ctx) && s.sched.current.Some? && s.sched.current.value.state.Running?
      && s.sched.current.value.id in s.calls
      && s.cpu.ctx.rsp == StackTop(s.sched.current.value.id) - FRAME_SIZE
    case Fault => FromUser(s.cpu.ctx) && s.sched.current.Some?
    case Start => s.sched.current.None?
  }

  ghost predicate HasFrame(s: Machine, e: Event) {
    match e
    case Tick(lockFree) => TickRestores(s, lockFree)
    case SyscallLeave => s.sched.current.Some? && FramePresent(s.mem, s.cpu.ctx.rsp)
    case Start => s.sched.queue != [] ==> FramePresent(s.mem, s.sched.queue[0].stackPtr)
    case _ => true
  }

  ghost function Step(s: Machine, e: Event): Machine
    requires Legal(s, e) && HasFrame(s, e)
  {
    match e
    case Tick(lockFree) => Interrupt(s, lockFree)
    case Spawn(user, entry, userStack, pml4, stale) =>
      var id := s.nextId;
      var top := StackTop(id);
      var t := Task(id, top - FRAME_SIZE, top, pml4, Ready);
      s.(mem := SaveFrame(s.mem + stale, top, InitialContext(user, entry, userStack, top)), nextId := id + 1,
         sched := s.sched.(queue := s.sched.queue + [t], taskCount := s.sched.taskCount + 1))
    case Exit => s.(sched := s.sched.(current := Some(s.sched.current.value.(state := Zombie))))
    case Compute(ctx, mem) => s.(cpu := s.cpu.(ctx := ctx), mem := mem)
    case SyscallEnter => EnterCall(s)
    case SyscallLeave => LeaveCall(s)
    case Fault =>
      // The fault handlers run without swapgs and end the task.
      var words := PushOrder(s.cpu.ctx);
      s.(mem := Pushed(s.mem, s.cpu.rsp0, words, 5),
         cpu := s.cpu.(ctx := s.cpu.ctx.(cs := 0x08, ss := 0,
                                         rsp := if s.cpu.rsp0 >= 48 then s.cpu.rsp0 - 48 else 0)),
         sched := s.sched.(current := Some(s.sched.current.value.(state := Zombie))))
    case Start =>
      if s.sched.queue == [] then s.(mode := Crashed)
      else
        var next := s.sched.queue[0].(state := Running);
        var ctx := FrameAt(s.mem, next.stackPtr);
        s.(cpu := SwapIf(SwitchTo(s.cpu, next).(ctx := ctx), FromUser(ctx)),
           sched := Sched(s.sched.queue[1..], Some(next), Some(next.id), s.sched.taskCount))
  }

  // ---- The invariant ----

  /** Inside a system call the top of the stack holds the context to go back to. */
  ghost predicate CallSaved(s: Machine, id: nat) {
    id in s.calls ==>
      FramePresent(s.mem, StackTop(id) - FRAME_SIZE)
        && FrameAt(s.mem, StackTop(id) - FRAME_SIZE) == UserCall(s.calls[id])
  }

  /** A context that task `id` may run in: outside a system call if in user mode, and otherwise on
      its own stack. */
  ghost predicate ContextOk(s: Machine, c: Context, id: nat) {
    && (FromUser(c) ==> id !in s.calls)
    && (!FromUser(c) ==> StackBottom(id) <= c.rsp <= Limit(s, id))
  }

  /** A queued task: ready, with a whole frame on its own stack. */
  ghost predicate QueuedOk(s: Machine, t: Task) {
    && 1 <= t.id < s.nextId && t.stackTop == StackTop(t.id) && t.state.Ready?
    && StackBottom(t.id) <= t.stackPtr && t.stackPtr + FRAME_SIZE <= Limit(s, t.id) && FramePresent(s.mem, t.stackPtr)
    && ContextOk(s, FrameAt(s.mem, t.stackPtr), t.id) && CallSaved(s, t.id)
  }

  /** The current task: running or dead, and the hardware set up for it. */
  ghost predicate CurrentOk(s: Machine, t: Task) {
    && 1 <= t.id < s.nextId && t.stackTop == StackTop(t.id) && (t.state.Running? || t.state.Zombie?)
    && s.sched.currentId == Some(t.id) && s.cpu.rsp0 == s.cpu.cpuStack == t.stackTop && s.cpu.cr3 == t.pml4
    && ContextOk(s, s.cpu.ctx, t.id) && CallSaved(s, t.id) && (t.state.Zombie? ==> !FromUser(s.cpu.ctx))
  }

  ghost predicate IdsOk(s: Machine) {
    && (forall i, j :: 0 <= i < j < |s.sched.queue| ==> s.sched.queue[i].id != s.sched.queue[j].id)
    && (forall i :: 0 <= i < |s.sched.queue| ==> s.sched.queue[i].id !in s.retired)
    && (forall r :: r in s.retired ==> 1 <= r < s.nextId)
    && (s.sched.current.Some? ==>
          s.sched.current.value.id !in s.retired
            && forall i :: 0 <= i < |s.sched.queue| ==> s.sched.queue[i].id != s.sched.current.value.id)
    && s.sched.taskCount == |s.sched.queue| + (if s.sched.current.Some? then 1 else 0) + |s.retired|
    && s.nextId == s.sched.taskCount + 1
  }

  ghost predicate Inv(s: Machine) {
    && (forall id :: 1 <= id < s.nextId ==> StackPresent(s.mem, id))
    && (forall i :: 0 <= i < |s.sched.queue| ==> QueuedOk(s, s.sched.queue[i]))
    && (s.sched.current.Some? ==> CurrentOk(s, s.sched.current.value))
    && (s.sched.current.None? && s.mode == Live ==> s.retired == {} && s.calls == map[] && !FromUser(s.cpu.ctx))
    && (forall id :: id in s.calls ==> 1 <= id < s.nextId)
    && (s.mode == Halted ==> s.sched.current.None? && s.sched.queue == [])
    && IdsOk(s)
  }

  /** Before `start_scheduling`: boot code in ring 0, GS set up by `gdt::init`. */
  ghost predicate Booted(s: Machine) {
    && s.sched == Sched([], None, None, 0) && s.nextId == 1 && s.retired == {} && s.calls == map[] && s.mode == Live
    && !FromUser(s.cpu.ctx) && s.cpu.gs == PER_CPU && s.cpu.kernelGs == USER_GS
  }

  // ---- Memory of one stack, and of the others ----

  lemma StackLayout(id: nat)
    ensures StackTop(id) % 16 == 0 && StackTop(id) >= StackBottom(id) + 2 * FRAME_SIZE
            && StackBottom(id) > STACK_REGION_BASE
    ensures StackTop(id) % 8 == 0
    ensures StackBottom(id) % 16 == 0
  {
    assert StackBottom(id) == 16 * (STACK_REGION_BASE / 16 + id * (STACK_STRIDE / 16) + GUARD_SIZE / 16);
  }

  /** Stacks of different tasks share no address. */
  lemma StacksDisjoint(i: nat, j: nat, a: nat)
    requires i != j && InStack(a, i)
    ensures !InStack(a, j)
  {}

  lemma FrameInStack(m: StackMem, id: nat, p: nat)
    requires StackPresent(m, id) && p % 8 == 0 && StackBottom(id) <= p && p + FRAME_SIZE <= StackTop(id)
    ensures FramePresent(m, p)
  {
    forall k | 0 <= k < 20 ensures p + 8 * k in m {
      assert InStack(p + 8 * k, id) && (p + 8 * k) % 8 == 0;
    }
  }

  lemma SaveFrameBelow(m: StackMem, id: nat, top: nat, c: Context)
    requires StackBottom(id) + FRAME_SIZE <= top <= StackTop(id)
    ensures OnlyBelow(m, SaveFrame(m, top, c), id, top)
  {}

  lemma OnlyBelowUntouched(m: StackMem, e: StackMem, id: nat, limit: nat, other: nat)
    requires OnlyBelow(m, e, id, limit) && other != id
    ensures Untouched(m, e, other)
  {
    forall a | a in m && InStack(a, other) ensures e[a] == m[a] {
      StacksDisjoint(other, id, a);
    }
  }

  lemma FrameUntouched(m: StackMem, e: StackMem, id: nat, p: nat)
    requires FramePresent(m, p) && Untouched(m, e, id) && StackBottom(id) <= p && p + FRAME_SIZE <= StackTop(id)
    ensures FramePresent(e, p) && FrameAt(e, p) == FrameAt(m, p)
  {
    hide FramePresent, FrameAt;
    FrameKept(m, e, p);
  }

  lemma FrameAbove(m: StackMem, e: StackMem, id: nat, limit: nat, p: nat)
    requires FramePresent(m, p) && OnlyBelow(m, e, id, limit) && limit <= p
    ensures FramePresent(e, p) && FrameAt(e, p) == FrameAt(m, p)
  {
    hide FramePresent, FrameAt;
    FrameKept(m, e, p);
  }

  /** A queued task is untouched by a step that leaves its stack and its call alone. */
  lemma QueuedKept(s: Machine, s': Machine, t: Task)
    requires QueuedOk(s, t) && Untouched(s.mem, s'.mem, t.id) && s.nextId <= s'.nextId
    requires t.id in s.calls <==> t.id in s'.calls
    requires t.id in s.calls ==> s'.calls[t.id] == s.calls[t.id]
    ensures QueuedOk(s', t) && FrameAt(s'.mem, t.stackPtr) == FrameAt(s.mem, t.stackPtr)
  {
    hide FramePresent, FrameAt, Untouched;
    StackLayout(t.id);
    FrameUntouched(s.mem, s'.mem, t.id, t.stackPtr);
    if t.id in s.calls {
      FrameUntouched(s.mem, s'.mem, t.id, StackTop(t.id) - FRAME_SIZE);
    }
  }

  lemma PresentKept(m: StackMem, e: StackMem, id: nat)
    requires StackPresent(m, id) && m.Keys <= e.Keys
    ensures StackPresent(e, id)
  {}

  // ---- Each event keeps the invariant ----

  lemma EntryAligned(cpu: Cpu, id: nat)
    requires FromUser(cpu.ctx) ==> cpu.rsp0 == StackTop(id)
    ensures EntryTop(cpu) % 8 == 0 && (!FromUser(cpu.ctx) ==> EntryTop(cpu) <= cpu.ctx.rsp)
    ensures FromUser(cpu.ctx) ==> EntryTop(cpu) == cpu.rsp0
    ensures EntryTop(cpu) >= FRAME_SIZE ==> (EntryTop(cpu) - FRAME_SIZE) % 8 == 0
  {
    hide StackTop, Align16;
    StackLayout(id);
    Align16Facts(cpu.ctx.rsp);
  }

  lemma Align16Facts(p: nat)
    ensures Align16(p) % 8 == 0 && Align16(p) <= p
  {
    var q := p / 16;
    assert p == 16 * q + p % 16 && Align16(p) == 8 * (2 * q);
  }

  /** The frame of the running code is in `m` below `top`, inside the task's own stack, and the frame
      of the system call it interrupted, if any, is still there. */
  ghost predicate FrameSaved(s: Machine, t: Task, m: StackMem, top: nat) {
    && FRAME_SIZE <= top && StackBottom(t.id) <= top - FRAME_SIZE && top <= Limit(s, t.id)
    && OnlyBelow(s.mem, m, t.id, top) && FramePresent(m, top - FRAME_SIZE) && FrameAt(m, top - FRAME_SIZE) == s.cpu.ctx
    && (t.id in s.calls ==> CallFrame(m, t.id, s.calls[t.id]))
  }

  ghost predicate CallFrame(m: StackMem, id: nat, c: Context) {
    FramePresent(m, StackTop(id) - FRAME_SIZE) && FrameAt(m, StackTop(id) - FRAME_SIZE) == UserCall(c)
  }

  lemma TickSaved(s: Machine, t: Task, lockFree: bool)
    requires Inv(s) && s.sched.current == Some(t) && Legal(s, Tick(lockFree))
    ensures FRAME_SIZE <= EntryTop(s.cpu)
    ensures FrameSaved(s, t, SaveFrame(s.mem, EntryTop(s.cpu), s.cpu.ctx), EntryTop(s.cpu))
  {
    hide FramePresent, FrameAt, SaveFrame, IdsOk, QueuedOk, OnlyBelow, StackPresent, EntryTop;
    StackLayout(t.id);
    var top := EntryTop(s.cpu);
    EntryAligned(s.cpu, t.id);
    FrameInStack(s.mem, t.id, top - FRAME_SIZE);
    SaveFrameBelow(s.mem, t.id, top, s.cpu.ctx);
    SaveRestore(s.mem, top, s.cpu.ctx);
    if t.id in s.calls {
      FrameAbove(s.mem, SaveFrame(s.mem, top, s.cpu.ctx), t.id, top, StackTop(t.id) - FRAME_SIZE);
    }
  }

  /** A tick before scheduling has started returns to the boot code. */
  lemma TickBoot(s: Machine, lockFree: bool)
    requires Inv(s) && s.sched.current.None? && Legal(s, Tick(lockFree))
    ensures HasFrame(s, Tick(lockFree))
    ensures Step(s, Tick(lockFree)) == s.(mem := SaveFrame(s.mem, EntryTop(s.cpu), s.cpu.ctx), ticks := s.ticks + 1)
    ensures forall id :: Untouched(s.mem, SaveFrame(s.mem, EntryTop(s.cpu), s.cpu.ctx), id)
  {
    hide FramePresent, FrameAt, SaveFrame, IdsOk, QueuedOk;
    var top := EntryTop(s.cpu);
    SaveRestore(s.mem, top, s.cpu.ctx);
    assert SwapIf(SwapIf(s.cpu, FromUser(s.cpu.ctx)), FromUser(s.cpu.ctx)) == s.cpu;
    assert s.retired + {} == s.retired;
    forall id ensures Untouched(s.mem, SaveFrame(s.mem, top, s.cpu.ctx), id) {
      SaveFrameBoot(s.mem, top, s.cpu.ctx, id);
    }
  }

  lemma SaveFrameBoot(m: StackMem, top: nat, c: Context, id: nat)
    requires FRAME_SIZE <= top <= STACK_REGION_BASE
    ensures Untouched(m, SaveFrame(m, top, c), id)
  {}

  ghost predicate Stays(s: Machine, lockFree: bool) {
    s.sched.current.Some? && (!lockFree || (s.sched.queue == [] && !s.sched.current.value.state.Zombie?))
  }

  /** A tick that does not switch: the lock is taken, or there is nothing to switch to. The running
      code goes on in the very context it was interrupted in. */
  lemma TickStays(s: Machine, lockFree: bool)
    requires Inv(s) && Legal(s, Tick(lockFree)) && Stays(s, lockFree)
    ensures HasFrame(s, Tick(lockFree))
    ensures var t := s.sched.current.value;
            Step(s, Tick(lockFree)) ==
            s.(mem := SaveFrame(s.mem, EntryTop(s.cpu), s.cpu.ctx), ticks := s.ticks + 1,
               sched := if lockFree then s.sched.(current := Some(t.(stackPtr := EntryTop(s.cpu) - FRAME_SIZE)))
                 else s.sched)
  {
    hide FramePresent, FrameAt, SaveFrame, IdsOk, QueuedOk;
    var t := s.sched.current.value;
    TickSaved(s, t, lockFree);
    assert SwapIf(SwapIf(s.cpu, FromUser(s.cpu.ctx)), FromUser(s.cpu.ctx)) == s.cpu;
    assert s.retired + {} == s.retired;
  }

  ghost predicate Switches(s: Machine, lockFree: bool) {
    s.sched.current.Some? && lockFree && s.sched.queue != []
  }

  /** A tick that switches to the front of the queue: its saved context is loaded, and the hardware
      set up for it. */
  lemma TickSwitches(s: Machine, lockFree: bool)
    requires Inv(s) && Legal(s, Tick(lockFree)) && Switches(s, lockFree)
    ensures HasFrame(s, Tick(lockFree))
    ensures var t, next, s' := s.sched.current.value, s.sched.queue[0], Step(s, Tick(lockFree));
            var p := EntryTop(s.cpu) - FRAME_SIZE;
            && s'.mem == SaveFrame(s.mem, EntryTop(s.cpu), s.cpu.ctx) && s'.mode == Live && s'.calls == s.calls
            && s'.nextId == s.nextId && s'.ticks == s.ticks + 1
            && s'.sched == Sched(
                 s.sched.queue[1..] + (if t.state.Running? then [t.(stackPtr := p, state := Ready)] else []),
                 Some(next.(state := Running)), Some(next.id), s.sched.taskCount)
            && s'.retired == (if t.state.Running? then s.retired else s.retired + {t.id})
            && s'.cpu.ctx == FrameAt(s.mem, next.stackPtr)
            && s'.cpu.rsp0 == s'.cpu.cpuStack == next.stackTop && s'.cpu.cr3 == next.pml4
            && s'.cpu == SwapIf(SwitchTo(SwapIf(s.cpu, FromUser(s.cpu.ctx)), next).(ctx := s'.cpu.ctx),
                                FromUser(s'.cpu.ctx))
  {
    hide FramePresent, FrameAt, SaveFrame;
    var t, next := s.sched.current.value, s.sched.queue[0];
    TickSaved(s, t, lockFree);
    var m := SaveFrame(s.mem, EntryTop(s.cpu), s.cpu.ctx);
    assert QueuedOk(s, next);
    OnlyBelowUntouched(s.mem, m, t.id, EntryTop(s.cpu), next.id);
    FrameUntouched(s.mem, m, next.id, next.stackPtr);
    assert s.retired + {} == s.retired;
  }

  /** The tick after the last task has exited halts. */
  lemma TickHalts(s: Machine, lockFree: bool)
    requires Inv(s) && Legal(s, Tick(lockFree)) && s.sched.current.Some? && !Stays(s, lockFree)
             && !Switches(s, lockFree)
    ensures HasFrame(s, Tick(lockFree))
    ensures var t, s' := s.sched.current.value, Step(s, Tick(lockFree));
            && t.state.Zombie? && s.sched.queue == [] && s'.mode == Halted && s'.retired == s.retired + {t.id}
            && s'.sched == s.sched.(current := None) && s'.nextId == s.nextId && s'.calls == s.calls
            && s'.mem == SaveFrame(s.mem, EntryTop(s.cpu), s.cpu.ctx)
  {
    hide FramePresent, FrameAt, SaveFrame;
    TickSaved(s, s.sched.current.value, lockFree);
  }

  lemma StackPresentKept(s: Machine, e: StackMem)
    requires Inv(s) && s.mem.Keys <= e.Keys
    ensures forall id :: 1 <= id < s.nextId ==> StackPresent(e, id)
  {
    hide IdsOk, QueuedOk;
    forall id | 1 <= id < s.nextId ensures StackPresent(e, id) {
      PresentKept(s.mem, e, id);
    }
  }

  /** The queue is untouched by a step of the current task on its own stack. */
  lemma QueueKept(s: Machine, s': Machine, t: Task, limit: nat, i: nat)
    requires Inv(s) && s.sched.current == Some(t) && OnlyBelow(s.mem, s'.mem, t.id, limit) && s.nextId <= s'.nextId
    requires forall id :: id != t.id ==>
               (id in s.calls <==> id in s'.calls)
               && (id in s.calls ==> s'.calls[id] == s.calls[id])
    requires i < |s.sched.queue|
    ensures QueuedOk(s', s.sched.queue[i])
    ensures FrameAt(s'.mem, s.sched.queue[i].stackPtr) == FrameAt(s.mem, s.sched.queue[i].stackPtr)
  {
    hide FramePresent, FrameAt, OnlyBelow, Untouched;
    var q := s.sched.queue[i];
    OnlyBelowUntouched(s.mem, s'.mem, t.id, limit, q.id);
    QueuedKept(s, s', q);
  }

  lemma TickKeeps(s: Machine, lockFree: bool)
    requires Inv(s) && Legal(s, Tick(lockFree))
    ensures HasFrame(s, Tick(lockFree)) && Inv(Step(s, Tick(lockFree)))
  {
    hide FramePresent, FrameAt, SaveFrame, Untouched;
    var e := Tick(lockFree);
    var m := SaveFrame(s.mem, EntryTop(s.cpu), s.cpu.ctx);
    if s.sched.current.None? {
      TickBoot(s, lockFree);
      var s' := Step(s, e);
      StackPresentKept(s, m);
      forall i | 0 <= i < |s.sched.queue| ensures QueuedOk(s', s.sched.queue[i]) {
        QueuedKept(s, s', s.sched.queue[i]);
      }
    } else if Stays(s, lockFree) {
      TickStaysKeeps(s, lockFree);
    } else if Switches(s, lockFree) {
      TickSwitchesKeeps(s, lockFree);
    } else {
      TickHalts(s, lockFree);
      TickSaved(s, s.sched.current.value, lockFree);
      StackPresentKept(s, m);
    }
  }

  lemma TickStaysKeeps(s: Machine, lockFree: bool)
    requires Inv(s) && Legal(s, Tick(lockFree)) && Stays(s, lockFree)
    ensures HasFrame(s, Tick(lockFree)) && Inv(Step(s, Tick(lockFree)))
  {
    hide FramePresent, FrameAt, SaveFrame, Untouched;
    TickStays(s, lockFree);
    var t, s' := s.sched.current.value, Step(s, Tick(lockFree));
    TickSaved(s, t, lockFree);
    StackPresentKept(s, s'.mem);
    forall i | 0 <= i < |s.sched.queue| ensures QueuedOk(s', s.sched.queue[i]) {
      QueueKept(s, s', t, EntryTop(s.cpu), i);
    }
  }

  /** The task switched out waits with its context saved; the others wait as before. */
  lemma SwitchedQueue(s: Machine, lockFree: bool, i: nat)
    requires Inv(s) && Legal(s, Tick(lockFree)) && Switches(s, lockFree) && HasFrame(s, Tick(lockFree))
    requires i < |Step(s, Tick(lockFree)).sched.queue|
    ensures QueuedOk(Step(s, Tick(lockFree)), Step(s, Tick(lockFree)).sched.queue[i])
  {
    hide FramePresent, FrameAt, SaveFrame, Untouched, OnlyBelow, IdsOk, StackPresent;
    TickSwitches(s, lockFree);
    var t, s' := s.sched.current.value, Step(s, Tick(lockFree));
    TickSaved(s, t, lockFree);
    var top := EntryTop(s.cpu);
    if i < |s.sched.queue| - 1 {
      QueueKept(s, s', t, top, i + 1);
      assert s'.sched.queue[i] == s.sched.queue[i + 1];
    } else {
      assert s'.sched.queue[i] == t.(stackPtr := top - FRAME_SIZE, state := Ready);
    }
  }

  /** The hardware is set up for the task switched to. */
  lemma SwitchedCurrent(s: Machine, lockFree: bool)
    requires Inv(s) && Legal(s, Tick(lockFree)) && Switches(s, lockFree) && HasFrame(s, Tick(lockFree))
    ensures Step(s, Tick(lockFree)).sched.current.Some?
    ensures CurrentOk(Step(s, Tick(lockFree)), Step(s, Tick(lockFree)).sched.current.value)
  {
    hide FramePresent, FrameAt, SaveFrame, Untouched, OnlyBelow, IdsOk, StackPresent;
    TickSwitches(s, lockFree);
    TickSaved(s, s.sched.current.value, lockFree);
    QueueKept(s, Step(s, Tick(lockFree)), s.sched.current.value, EntryTop(s.cpu), 0);
  }

  lemma TickSwitchesKeeps(s: Machine, lockFree: bool)
    requires Inv(s) && Legal(s, Tick(lockFree)) && Switches(s, lockFree)
    ensures HasFrame(s, Tick(lockFree)) && Inv(Step(s, Tick(lockFree)))
  {
    hide FramePresent, FrameAt, SaveFrame, Untouched, OnlyBelow, QueuedOk, IdsOk;
    TickSwitches(s, lockFree);
    var s' := Step(s, Tick(lockFree));
    StackPresentKept(s, s'.mem);
    forall i | 0 <= i < |s'.sched.queue| ensures QueuedOk(s', s'.sched.queue[i]) {
      SwitchedQueue(s, lockFree, i);
    }
    SwitchedCurrent(s, lockFree);
    SwitchedIds(s, s', s.sched.current.value, s.sched.queue[0]);
  }

  lemma SwitchedIds(s: Machine, s': Machine, t: Task, next: Task)
    requires IdsOk(s) && s.sched.current == Some(t) && s.sched.queue != [] && next == s.sched.queue[0]
             && 1 <= t.id < s.nextId
    requires exists back: Task ::
               back.id == t.id && s'.sched.queue == s.sched.queue[1..] + if t.state.Running? then [back] else []
    requires s'.sched.current.Some? && s'.sched.current.value.id == next.id && s'.sched.taskCount == s.sched.taskCount
    requires s'.retired == (if t.state.Running? then s.retired else s.retired + {t.id}) && s'.nextId == s.nextId
    ensures IdsOk(s')
  {
    var back: Task :| back.id == t.id && s'.sched.queue == s.sched.queue[1..] + if t.state.Running? then [back] else [];
    var q, q' := s.sched.queue, s'.sched.queue;
    forall i | 0 <= i < |q'| ensures q'[i].id == if i < |q| - 1 then q[i + 1].id else t.id {
      assert i < |q| - 1 ==> q'[i] == q[i + 1];
    }
  }

  /** A new task: its first context lies at the top of its own new stack. */
  lemma SpawnKeeps(s: Machine, e: Event)
    requires Inv(s) && Legal(s, e) && e.Spawn?
    ensures Inv(Step(s, e))
    ensures var s' := Step(s, e);
            var t := s'.sched.queue[|s.sched.queue|];
            && s'.sched.queue == s.sched.queue + [t] && t.id == s.nextId && FramePresent(s'.mem, t.stackPtr)
            && FrameAt(s'.mem, t.stackPtr) == InitialContext(e.user, e.entry, e.userStack, t.stackTop)
            && forall id :: id != t.id ==> Untouched(s.mem, s'.mem, id)
  {
    hide FramePresent, FrameAt, SaveFrame, IdsOk, Untouched, StackPresent;
    var id, s' := s.nextId, Step(s, e);
    var top := StackTop(id);
    var c := InitialContext(e.user, e.entry, e.userStack, top);
    StackLayout(id);
    PresentKept(e.stale, s.mem + e.stale, id);
    FrameInStack(s.mem + e.stale, id, top - FRAME_SIZE);
    SaveRestore(s.mem + e.stale, top, c);
    forall other | other != id ensures Untouched(s.mem, s'.mem, other) {
      SpawnUntouched(s.mem, e.stale, id, c, other);
    }
    forall i | 1 <= i < s'.nextId ensures StackPresent(s'.mem, i) {
      if i < id {
        PresentKept(s.mem, s'.mem, i);
      } else {
        PresentKept(s.mem + e.stale, s'.mem, i);
      }
    }
    SpawnQueue(s, s');
    SpawnIds(s, s');
  }

  lemma SpawnUntouched(m: StackMem, stale: StackMem, id: nat, c: Context, other: nat)
    requires other != id && forall a :: a in stale ==> InStack(a, id)
    ensures Untouched(m, SaveFrame(m + stale, StackTop(id), c), other)
  {
    hide SaveFrame;
    StackLayout(id);
    SaveFrameBelow(m + stale, id, StackTop(id), c);
    OnlyBelowUntouched(m + stale, SaveFrame(m + stale, StackTop(id), c), id, StackTop(id), other);
    forall a | a in m && InStack(a, other) ensures a !in stale {
      StacksDisjoint(other, id, a);
    }
  }

  lemma SpawnQueue(s: Machine, s': Machine)
    requires Inv(s) && s'.nextId == s.nextId + 1 && s'.calls == s.calls && s'.mode == s.mode && s'.cpu == s.cpu
             && s'.retired == s.retired
    requires s'.sched.current == s.sched.current && s'.sched.currentId == s.sched.currentId
    requires forall id :: id != s.nextId ==> Untouched(s.mem, s'.mem, id)
    ensures forall i :: 0 <= i < |s.sched.queue| ==> QueuedOk(s', s.sched.queue[i])
    ensures s'.sched.current.Some? ==> CurrentOk(s', s'.sched.current.value)
  {
    hide FramePresent, FrameAt, Untouched, IdsOk;
    forall i | 0 <= i < |s.sched.queue| ensures QueuedOk(s', s.sched.queue[i]) {
      QueuedKept(s, s', s.sched.queue[i]);
    }
    if s.sched.current.Some? {
      var t := s.sched.current.value;
      StackLayout(t.id);
      if t.id in s.calls {
        FrameUntouched(s.mem, s'.mem, t.id, StackTop(t.id) - FRAME_SIZE);
      }
    }
  }

  lemma SpawnIds(s: Machine, s': Machine)
    requires IdsOk(s) && s'.nextId == s.nextId + 1 && s'.retired == s.retired && s'.sched.current == s.sched.current
    requires s.sched.current.Some? ==> s.sched.current.value.id < s.nextId
    requires forall i :: 0 <= i < |s.sched.queue| ==> s.sched.queue[i].id < s.nextId
    requires |s'.sched.queue| == |s.sched.queue| + 1 && s'.sched.queue[..|s.sched.queue|] == s.sched.queue
    requires s'.sched.queue[|s.sched.queue|].id == s.nextId && s'.sched.taskCount == s.sched.taskCount + 1
    ensures IdsOk(s')
  {
    var q, q' := s.sched.queue, s'.sched.queue;
    assert forall i :: 0 <= i < |q| ==> q'[i] == q[i];
  }

  /** A step of the current task on its own stack, below the frame of its system call if it is in
      one, keeps the invariant when it leaves the task in a context it may be in. */
  lemma OwnStepKeeps(s: Machine, s': Machine, t: Task, limit: nat)
    requires Inv(s) && s.mode == Live && s.sched.current == Some(t) && OnlyBelow(s.mem, s'.mem, t.id, limit)
    requires s'.sched.queue == s.sched.queue && s'.sched.taskCount == s.sched.taskCount
             && s'.sched.currentId == s.sched.currentId
    requires s'.nextId == s.nextId && s'.retired == s.retired && s'.mode == Live
    requires s'.cpu.rsp0 == s.cpu.rsp0 && s'.cpu.cpuStack == s.cpu.cpuStack && s'.cpu.cr3 == s.cpu.cr3
    requires forall id :: id != t.id ==>
               (id in s.calls <==> id in s'.calls)
               && (id in s.calls ==> s'.calls[id] == s.calls[id])
    requires s'.sched.current.Some? && var t' := s'.sched.current.value;
             && t'.id == t.id && t'.stackTop == t.stackTop && t'.pml4 == t.pml4
             && (t'.state.Running? || t'.state.Zombie?)
             && ContextOk(s', s'.cpu.ctx, t.id) && CallSaved(s', t.id) && (t'.state.Zombie? ==> !FromUser(s'.cpu.ctx))
    ensures Inv(s')
  {
    hide FramePresent, FrameAt;
    StackPresentKept(s, s'.mem);
    forall i | 0 <= i < |s.sched.queue| ensures QueuedOk(s', s.sched.queue[i]) {
      QueueKept(s, s', t, limit, i);
    }
  }

  lemma OnlyBelowRefl(m: StackMem, id: nat, limit: nat)
    ensures OnlyBelow(m, m, id, limit)
  {}

  lemma ComputeKeeps(s: Machine, e: Event)
    requires Inv(s) && Legal(s, e) && e.Compute?
    ensures Inv(Step(s, e))
  {
    hide FramePresent, FrameAt, IdsOk, QueuedOk, OnlyBelow;
    if s.sched.current.Some? {
      var t := s.sched.current.value;
      StackLayout(t.id);
      OnlyBelowRefl(s.mem, t.id, Limit(s, t.id));
      if t.id in s.calls {
        FrameAbove(s.mem, e.mem, t.id, Limit(s, t.id), StackTop(t.id) - FRAME_SIZE);
      }
      OwnStepKeeps(s, Step(s, e), t, Limit(s, t.id));
    } else {
      SameMemKeeps(s, Step(s, e));
    }
  }

  lemma SameMemKeeps(s: Machine, s': Machine)
    requires Inv(s) && s.sched.current.None? && s' == s.(cpu := s'.cpu) && FromUser(s'.cpu.ctx) == FromUser(s.cpu.ctx)
    ensures Inv(s')
  {
    assert forall i :: 0 <= i < |s.sched.queue| ==> QueuedOk(s, s.sched.queue[i]);
  }

  lemma ExitKeeps(s: Machine)
    requires Inv(s) && Legal(s, Exit)
    ensures Inv(Step(s, Exit))
  {
    hide FramePresent, FrameAt, IdsOk, QueuedOk, OnlyBelow;
    var t := s.sched.current.value;
    OnlyBelowRefl(s.mem, t.id, 0);
    OwnStepKeeps(s, Step(s, Exit), t, 0);
  }

  lemma FaultKeeps(s: Machine)
    requires Inv(s) && Legal(s, Fault)
    ensures Inv(Step(s, Fault))
  {
    hide FramePresent, FrameAt, IdsOk, QueuedOk, OnlyBelow;
    var t := s.sched.current.value;
    StackLayout(t.id);
    PushedBelow(s.mem, t.id, PushOrder(s.cpu.ctx), 5);
    OwnStepKeeps(s, Step(s, Fault), t, StackTop(t.id));
  }

  lemma PushedBelow(m: StackMem, id: nat, ws: seq<nat>, n: nat)
    requires n <= |ws| && n <= 20
    ensures OnlyBelow(m, Pushed(m, StackTop(id), ws, n), id, StackTop(id))
  {
    StackLayout(id);
  }

  /** Entering a system call puts the context to go back to at the top of the task's stack; with
      GS at the per-CPU block after `swapgs` it cannot crash. */
  lemma EnterKeeps(s: Machine)
    requires Inv(s) && Legal(s, SyscallEnter) && s.cpu.kernelGs == PER_CPU
    ensures Inv(Step(s, SyscallEnter))
  {
    hide FramePresent, FrameAt, SaveFrame, Inv, OnlyBelow, UserCall;
    var t := s.sched.current.value;
    CurrentFacts(s);
    SaveAtTop(s.mem, t.id, UserCall(s.cpu.ctx));
    OwnStepKeeps(s, Step(s, SyscallEnter), t, StackTop(t.id));
  }

  lemma CurrentFacts(s: Machine)
    requires Inv(s) && s.sched.current.Some?
    ensures CurrentOk(s, s.sched.current.value) && StackPresent(s.mem, s.sched.current.value.id)
  {}

  lemma SaveAtTop(m: StackMem, id: nat, c: Context)
    requires StackPresent(m, id)
    ensures var top := StackTop(id);
            && OnlyBelow(m, SaveFrame(m, top, c), id, top) && top - FRAME_SIZE >= StackBottom(id)
            && FramePresent(SaveFrame(m, top, c), top - FRAME_SIZE)
            && FrameAt(SaveFrame(m, top, c), top - FRAME_SIZE) == c
  {
    hide FramePresent, FrameAt, SaveFrame, OnlyBelow, StackPresent;
    StackLayout(id);
    FrameInStack(m, id, StackTop(id) - FRAME_SIZE);
    SaveFrameBelow(m, id, StackTop(id), c);
    SaveRestore(m, StackTop(id), c);
  }

  lemma EnterCrashes(s: Machine)
    requires Inv(s) && Legal(s, SyscallEnter) && s.cpu.kernelGs != PER_CPU
    ensures Inv(Step(s, SyscallEnter)) && Step(s, SyscallEnter) == s.(mode := Crashed)
  {
    var s' := Step(s, SyscallEnter);
    assert forall i :: 0 <= i < |s.sched.queue| ==> QueuedOk(s, s.sched.queue[i]);
    assert CurrentOk(s, s.sched.current.value);
  }

  /** Leaving it goes back to exactly the context it was entered from, with the result in rax and
      what the `syscall` instruction itself put in rcx and r11. */
  lemma LeaveKeeps(s: Machine)
    requires Inv(s) && Legal(s, SyscallLeave)
    ensures HasFrame(s, SyscallLeave) && Inv(Step(s, SyscallLeave))
    ensures var c := UserCall(s.calls[s.sched.current.value.id]);
            Step(s, SyscallLeave).cpu.ctx == c.(regs := c.regs[RAX := s.cpu.ctx.regs[RAX]])
  {
    hide IdsOk, QueuedOk, OnlyBelow, StackPresent;
    var t := s.sched.current.value;
    var p := StackTop(t.id) - FRAME_SIZE;
    StackLayout(t.id);
    var c := UserCall(s.calls[t.id]);
    var m := s.mem[p + 14 * 8 := s.cpu.ctx.regs[RAX]];
    RaxSlot(s.mem, p, s.cpu.ctx.regs[RAX]);
    RaxBelow(s.mem, t.id, s.cpu.ctx.regs[RAX]);
    var s' := Step(s, SyscallLeave);
    OwnStepKeeps(s, s', t, StackTop(t.id));
  }

  lemma RaxSlot(m: StackMem, p: nat, v: nat)
    requires FramePresent(m, p)
    ensures FramePresent(m[p + 14 * 8 := v], p)
    ensures FrameAt(m[p + 14 * 8 := v], p) == FrameAt(m, p).(regs := FrameAt(m, p).regs[RAX := v])
  {
    var c, d := FrameAt(m, p), FrameAt(m[p + 14 * 8 := v], p);
    assert forall k :: 0 <= k < 15 ==> d.regs[k] == c.regs[RAX := v][k];
    assert d.regs == c.regs[RAX := v];
  }

  lemma RaxBelow(m: StackMem, id: nat, v: nat)
    requires FramePresent(m, StackTop(id) - FRAME_SIZE)
    ensures OnlyBelow(m, m[StackTop(id) - FRAME_SIZE + 14 * 8 := v], id, StackTop(id))
  {
    StackLayout(id);
    var p := StackTop(id) - FRAME_SIZE;
    assert p + 8 * 14 in m;
  }

  /** `start_scheduling` dispatches the first task of the queue in its first context. */
  lemma StartKeeps(s: Machine)
    requires Inv(s) && Legal(s, Start)
    ensures HasFrame(s, Start) && Inv(Step(s, Start))
  {
    hide FramePresent, FrameAt;
    var s' := Step(s, Start);
    forall i | 0 <= i < |s.sched.queue| ensures QueuedOk(s', s.sched.queue[i]) {
      QueuedKept(s, s', s.sched.queue[i]) by { assert QueuedOk(s, s.sched.queue[i]); }
    }
    if s.sched.queue != [] {
      assert forall i :: 0 <= i < |s'.sched.queue| ==> s'.sched.queue[i] == s.sched.queue[i + 1];
    }
  }

  /** Every event keeps the invariant. */
  lemma StepKeeps(s: Machine, e: Event)
    requires Inv(s) && Legal(s, e)
    ensures HasFrame(s, e) && Inv(Step(s, e))
  {
    hide Inv, Legal, Step;
    match e
    case Tick(lockFree) => TickKeeps(s, lockFree);
    case Spawn(_, _, _, _, _) => SpawnKeeps(s, e);
    case Exit => ExitKeeps(s);
    case Compute(_, _) => ComputeKeeps(s, e);
    case SyscallEnter =>
      if s.cpu.kernelGs == PER_CPU {
        EnterKeeps(s);
      } else {
        EnterCrashes(s);
      }
    case SyscallLeave => LeaveKeeps(s);
    case Fault => FaultKeeps(s);
    case Start => StartKeeps(s);
  }
}
