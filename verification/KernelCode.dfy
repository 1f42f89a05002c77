/** The scheduler, the interrupt and system-call entry code and task creation as they run: registers
    pushed and popped one by one, fields updated in place. Each method does exactly what the
    machine's step says. */
module KernelCode {
  import opened Words
  import opened Contexts
  import opened Scheduling

  lemma PushedNone(m: StackMem, top: nat, ws: seq<nat>)
    ensures Pushed(m, top, ws, 0) == m
  {}

  /** Words that will be pushed over do not matter. */
  lemma PushedOver(m: StackMem, e: StackMem, top: nat, ws: seq<nat>, n: nat)
    requires n <= |ws| && e.Keys == m.Keys
    requires forall a :: a in m && !(a < top <= a + 8 * n && (top - a) % 8 == 0) ==> e[a] == m[a]
    ensures Pushed(e, top, ws, n) == Pushed(m, top, ws, n)
  {}

  lemma TracedMemory(m: StackMem, top: nat, c: Context, rax: nat, rdx: nat)
    requires top >= FRAME_SIZE && FramePresent(m, top - FRAME_SIZE) && top - 48 in m && top - 56 in m
    ensures var e := m[top - 48 := rax][top - 56 := rdx];
            && e.Keys == m.Keys && FramePresent(e, top - FRAME_SIZE)
            && Pushed(m, top, PushOrder(c), 5)[top - 48 := rax][top - 56 := rdx] == Pushed(e, top, PushOrder(c), 5)
            && SaveFrame(e, top, c) == SaveFrame(m, top, c)
  {
    var e := m[top - 48 := rax][top - 56 := rdx];
    PushedOver(m, e, top, PushOrder(c), 20);
  }

  /** The word the entry code tests is the interrupted code segment. */
  lemma SavedCodeSegment(m: StackMem, top: nat, c: Context)
    requires top >= FRAME_SIZE && FramePresent(m, top - FRAME_SIZE)
    ensures top - 32 in m && Pushed(m, top, PushOrder(c), 5)[top - 32] == c.cs
  {
    assert top - FRAME_SIZE + 8 * 16 in m;
  }

  lemma FrameCodeSegment(m: StackMem, p: nat)
    requires FramePresent(m, p)
    ensures p + 128 in m && m[p + 128] == FrameAt(m, p).cs
  {
    assert p + 8 * 16 in m;
  }

  lemma TickReady(s: Machine, lockFree: bool)
    requires Inv(s) && Legal(s, Scheduling.Tick(lockFree))
    ensures HasFrame(s, Scheduling.Tick(lockFree))
    ensures EntryTop(s.cpu) >= FRAME_SIZE && FramePresent(s.mem, EntryTop(s.cpu) - FRAME_SIZE)
  {
    hide FrameAt, SaveFrame, QueuedOk, IdsOk, StackPresent;
    TickKeeps(s, lockFree);
    if s.sched.current.Some? {
      TickSaved(s, s.sched.current.value, lockFree);
    }
  }

  lemma FrameSlot(m: StackMem, top: nat, k: nat)
    requires top >= FRAME_SIZE && FramePresent(m, top - FRAME_SIZE) && k < 20
    ensures 8 * (k + 1) <= top && top - 8 * (k + 1) in m
  {
    assert top - FRAME_SIZE + 8 * (19 - k) in m;
  }

  lemma RestoredFrame(s: Machine, lockFree: bool)
    requires HasFrame(s, Scheduling.Tick(lockFree)) && EntryTop(s.cpu) >= FRAME_SIZE
    ensures var r := TimerTick(s.sched, EntryTop(s.cpu) - FRAME_SIZE, lockFree);
            r.Resume? ==> FramePresent(SaveFrame(s.mem, EntryTop(s.cpu), s.cpu.ctx), r.ptr)
  {}

  lemma HaltedIs(s: Machine, lockFree: bool, s': Machine)
    requires Legal(s, Scheduling.Tick(lockFree)) && HasFrame(s, Scheduling.Tick(lockFree))
             && EntryTop(s.cpu) >= FRAME_SIZE
    requires var p := EntryTop(s.cpu) - FRAME_SIZE;
             var r := TimerTick(s.sched, p, lockFree);
             && r.Halt? && s'.cpu == SwapIf(s.cpu, FromUser(s.cpu.ctx)).(ctx := InHandler(s.cpu.ctx, p))
             && s'.mem == SaveFrame(s.mem, EntryTop(s.cpu), s.cpu.ctx) && s'.sched == r.sched && s'.ticks == s.ticks + 1
             && s'.retired == s.retired + Dropped(r) && s'.nextId == s.nextId && s'.calls == s.calls
             && s'.mode == Halted
    ensures s' == Step(s, Scheduling.Tick(lockFree))
  {
    hide FrameAt, FramePresent, SaveFrame, EntryTop, FromUser, TimerTick;
  }

  ghost predicate Resumed(s: Machine, lockFree: bool, entered: Cpu, ready: Cpu, s': Machine) {
    EntryTop(s.cpu) >= FRAME_SIZE &&
    var p := EntryTop(s.cpu) - FRAME_SIZE;
    var r := TimerTick(s.sched, p, lockFree);
    && r.Resume? && entered == SwapIf(s.cpu, FromUser(s.cpu.ctx)).(ctx := InHandler(s.cpu.ctx, p))
    && ready == (if r.next.Some? then SwitchTo(entered, r.next.value) else entered)
    && s'.mem == SaveFrame(s.mem, EntryTop(s.cpu), s.cpu.ctx) && FramePresent(s'.mem, r.ptr)
    && s'.cpu == SwapIf(ready.(ctx := FrameAt(s'.mem, r.ptr)), FromUser(FrameAt(s'.mem, r.ptr)))
    && s'.sched == r.sched && s'.ticks == s.ticks + 1
    && s'.retired == s.retired + Dropped(r) && s'.nextId == s.nextId && s'.calls == s.calls && s'.mode == s.mode
  }

  lemma ResumedIs(s: Machine, lockFree: bool, entered: Cpu, ready: Cpu, s': Machine)
    requires Resumed(s, lockFree, entered, ready, s')
    requires Legal(s, Scheduling.Tick(lockFree)) && HasFrame(s, Scheduling.Tick(lockFree))
    ensures s' == Step(s, Scheduling.Tick(lockFree))
  {
    hide FrameAt, FramePresent, SaveFrame, EntryTop, FromUser, TimerTick;
  }

  lemma EnterReady(s: Machine)
    requires Inv(s) && Legal(s, SyscallEnter)
    ensures s.cpu.cpuStack == StackTop(s.sched.current.value.id) >= FRAME_SIZE
    ensures FramePresent(s.mem, s.cpu.cpuStack - FRAME_SIZE)
  {
    hide FrameAt, QueuedOk, IdsOk;
    StackLayout(s.sched.current.value.id);
    FrameInStack(s.mem, s.sched.current.value.id, s.cpu.cpuStack - FRAME_SIZE);
  }

  lemma NewStackFrame(m: StackMem, stale: StackMem, id: nat)
    requires StackPresent(stale, id) && stale.Keys <= m.Keys
    ensures StackTop(id) >= FRAME_SIZE && FramePresent(m, StackTop(id) - FRAME_SIZE)
  {
    StackLayout(id);
    PresentKept(stale, m, id);
    FrameInStack(m, id, StackTop(id) - FRAME_SIZE);
  }

  class Kernel {
    var cpu: Cpu
    var mem: StackMem
    var sched: Sched
    var ticks: nat
    var nextId: nat
    ghost var retired: set<nat>
    ghost var calls: map<nat, Context>
    var mode: Mode

    ghost function State(): Machine
      reads this
    {
      Machine(cpu, mem, sched, ticks, nextId, retired, calls, mode)
    }

    method SetRsp(a: nat)
      modifies this`cpu
      ensures cpu == old(cpu).(ctx := old(cpu).ctx.(rsp := a))
    {
      cpu := cpu.(ctx := cpu.ctx.(rsp := a));
    }

    method SetReg(k: nat, v: nat)
      requires k < REGISTERS
      modifies this`cpu
      ensures cpu == old(cpu).(ctx := old(cpu).ctx.(regs := old(cpu).ctx.regs[k := v]))
    {
      cpu := cpu.(ctx := cpu.ctx.(regs := cpu.ctx.regs[k := v]));
    }

    method Push(v: nat)
      requires cpu.ctx.rsp >= 8 && cpu.ctx.rsp - 8 in mem
      modifies this`cpu, this`mem
      ensures cpu == old(cpu).(ctx := old(cpu).ctx.(rsp := old(cpu).ctx.rsp - 8))
              && mem == old(mem)[old(cpu).ctx.rsp - 8 := v]
    {
      SetRsp(cpu.ctx.rsp - 8);
      mem := mem[cpu.ctx.rsp := v];
    }

    method Pop() returns (v: nat)
      requires cpu.ctx.rsp in mem
      modifies this`cpu
      ensures v == mem[old(cpu).ctx.rsp] && cpu == old(cpu).(ctx := old(cpu).ctx.(rsp := old(cpu).ctx.rsp + 8))
    {
      v := mem[cpu.ctx.rsp];
      SetRsp(cpu.ctx.rsp + 8);
    }

    /** Push number `n` of the words `ws` below `top`. */
    method PushWord(v: nat, ghost m: StackMem, ghost top: nat, ghost ws: seq<nat>, ghost n: nat)
      requires n < |ws| && v == ws[n] && mem == Pushed(m, top, ws, n) && cpu.ctx.rsp == top - 8 * n
      requires 8 * (n + 1) <= top && top - 8 * (n + 1) in m
      modifies this`cpu, this`mem
      ensures mem == Pushed(m, top, ws, n + 1) && cpu == old(cpu).(ctx := old(cpu).ctx.(rsp := top - 8 * (n + 1)))
    {
      PushedNext(m, top, ws, n);
      Push(v);
    }

    /** The fifteen `push` instructions. */
    method SaveRegisters(ghost m: StackMem, ghost top: nat, ghost c: Context)
      requires cpu.ctx.regs == c.regs && mem == Pushed(m, top, PushOrder(c), 5) && cpu.ctx.rsp == top - 40
      requires top >= FRAME_SIZE && FramePresent(m, top - FRAME_SIZE)
      modifies this`cpu, this`mem
      ensures mem == SaveFrame(m, top, c) && cpu == old(cpu).(ctx := old(cpu).ctx.(rsp := top - FRAME_SIZE))
    {
      hide Pushed, FramePresent;
      var k := 0;
      while k < 15
        invariant k <= 15 && mem == Pushed(m, top, PushOrder(c), 5 + k)
        invariant cpu == old(cpu).(ctx := old(cpu).ctx.(rsp := top - 8 * (5 + k)))
      {
        FrameSlot(m, top, 5 + k);
        PushWord(cpu.ctx.regs[k], m, top, PushOrder(c), 5 + k);
        k := k + 1;
      }
    }

    /** The fifteen `pop` instructions. */
    method RestoreRegisters(ghost p: nat)
      requires cpu.ctx.rsp == p && FramePresent(mem, p)
      modifies this`cpu
      ensures cpu == old(cpu).(ctx := old(cpu).ctx.(rsp := p + 120, regs := FrameAt(mem, p).regs))
    {
      var k := 15;
      while k > 0
        invariant 0 <= k <= 15 && cpu == old(cpu).(ctx := old(cpu).ctx.(rsp := p + 8 * (15 - k), regs := cpu.ctx.regs))
        invariant forall j :: k <= j < 15 ==> cpu.ctx.regs[j] == FrameAt(mem, p).regs[j]
      {
        assert p + 8 * (15 - k) in mem;
        var v := Pop();
        SetReg(k - 1, v);
        k := k - 1;
      }
      assert cpu.ctx.regs == FrameAt(mem, p).regs;
    }

    /** `iretq`. */
    method Iretq(ghost p: nat)
      requires cpu.ctx.rsp == p + 120 && FramePresent(mem, p) && cpu.ctx.regs == FrameAt(mem, p).regs
      modifies this`cpu
      ensures cpu == old(cpu).(ctx := FrameAt(mem, p))
    {
      assert forall k :: 0 <= k < 20 ==> p + 8 * k in mem;
      assert p + 8 * 15 in mem && p + 8 * 16 in mem && p + 8 * 17 in mem && p + 8 * 18 in mem && p + 8 * 19 in mem;
      var rip := Pop();
      var cs := Pop();
      var rflags := Pop();
      var rsp := Pop();
      var ss := Pop();
      cpu := cpu.(ctx := Context(cpu.ctx.regs, rip, cs, rflags, rsp, ss));
    }

    method Swapgs()
      modifies this`cpu
      ensures cpu == SwapGs(old(cpu))
    {
      cpu := cpu.(gs := cpu.kernelGs, kernelGs := cpu.gs);
    }

    /** `Task::switch_to`. */
    method SwitchToTask(t: Task)
      modifies this`cpu
      ensures cpu == SwitchTo(old(cpu), t)
    {
      cpu := cpu.(rsp0 := t.stackTop, cpuStack := t.stackTop);
      if cpu.cr3 != t.pml4 {
        cpu := cpu.(cr3 := t.pml4);
      }
    }

    /** `timer_tick`: the stack pointer to go on with, or none when the system halts. */
    method Tick(p: nat, lockFree: bool) returns (next: Option<nat>)
      modifies this`sched, this`ticks, this`retired, this`cpu
      ensures ticks == old(ticks) + 1
      ensures var r := TimerTick(old(sched), p, lockFree);
              && sched == r.sched && retired == old(retired) + Dropped(r)
              && (next.None? <==> r.Halt?) && (next.Some? ==> next.value == r.ptr)
              && cpu == if r.Resume? && r.next.Some? then SwitchTo(old(cpu), r.next.value) else old(cpu)
    {
      ticks := ticks + 1;
      if lockFree && sched.current.Some? {
        var prev := sched.current.value.(stackPtr := p);
        sched := sched.(current := None);
        if sched.queue != [] {
          var task := sched.queue[0];
          sched := sched.(queue := sched.queue[1..]);
          if prev.state.Running? {
            sched := sched.(queue := sched.queue + [prev.(state := Ready)]);
          } else {
            retired := retired + {prev.id};
          }
          SwitchToTask(task);
          task := task.(state := Running);
          sched := sched.(current := Some(task), currentId := Some(task.id));
          return Some(task.stackPtr);
        }
        if prev.state.Zombie? {
          retired := retired + {prev.id};
          return None;
        }
        sched := sched.(current := Some(prev), currentId := Some(prev.id));
      }
      return Some(p);
    }

    /** What the CPU does on an interrupt: switch to the TSS stack when it comes from user mode, and
        push the five words of the return frame. */
    method EnterHandler(ghost m: StackMem, ghost top: nat, ghost c: Context)
      requires c == cpu.ctx && mem == m && top == EntryTop(cpu) >= FRAME_SIZE
      requires FramePresent(m, top - FRAME_SIZE)
      modifies this`cpu, this`mem
      ensures mem == Pushed(m, top, PushOrder(c), 5) && cpu == old(cpu).(ctx := InHandler(c, top - 40))
    {
      hide Pushed, FrameAt, FramePresent;
      var words := [cpu.ctx.ss, cpu.ctx.rsp, cpu.ctx.rflags, cpu.ctx.cs, cpu.ctx.rip];
      SetRsp(if FromUser(cpu.ctx) then cpu.rsp0 else Align16(cpu.ctx.rsp));
      PushedNone(m, top, PushOrder(c));
      var k := 0;
      while k < 5
        invariant k <= 5 && mem == Pushed(m, top, PushOrder(c), k) && cpu == old(cpu).(ctx := c.(rsp := top - 8 * k))
      {
        FrameSlot(m, top, k);
        PushWord(words[k], m, top, PushOrder(c), k);
        k := k + 1;
      }
      cpu := cpu.(ctx := cpu.ctx.(cs := 0x08, ss := 0));
    }

    /** The trace at the start of the timer entry: rax and rdx go out and come back; the two words
        they leave behind lie where the frame is about to be pushed. */
    method TraceTick(ghost m: StackMem, ghost top: nat, ghost c: Context) returns (ghost e: StackMem)
      requires mem == Pushed(m, top, PushOrder(c), 5) && cpu.ctx.rsp == top - 40
      requires top >= FRAME_SIZE && FramePresent(m, top - FRAME_SIZE)
      modifies this`cpu, this`mem
      ensures cpu == old(cpu)
      ensures e.Keys == m.Keys && mem == Pushed(e, top, PushOrder(c), 5)
      ensures SaveFrame(e, top, c) == SaveFrame(m, top, c) && FramePresent(e, top - FRAME_SIZE)
    {
      hide FramePresent, Pushed, SaveFrame;
      FrameSlot(m, top, 5);
      FrameSlot(m, top, 6);
      var rax, rdx := cpu.ctx.regs[RAX], cpu.ctx.regs[RDX];
      Push(rax);
      Push(rdx);
      SetReg(RDX, 0x3F8);
      SetReg(RAX, 84);
      var v := Pop();
      SetReg(RDX, v);
      v := Pop();
      SetReg(RAX, v);
      e := m[top - 48 := rax][top - 56 := rdx];
      TracedMemory(m, top, c, rax, rdx);
      assert cpu.ctx.regs == old(cpu.ctx.regs);
    }

    /** The entry code: the frame pushed, GS exchanged when it comes from user mode. */
    method EnterAndSave(timer: bool, ghost m: StackMem, ghost top: nat, ghost c: Context)
      requires c == cpu.ctx && mem == m && top == EntryTop(cpu) >= FRAME_SIZE
      requires FramePresent(m, top - FRAME_SIZE)
      modifies this`cpu, this`mem
      ensures mem == SaveFrame(m, top, c)
      ensures cpu == SwapIf(old(cpu), FromUser(c)).(ctx := InHandler(c, top - FRAME_SIZE))
    {
      hide Pushed, FrameAt, FramePresent, SaveFrame, PushOrder;
      EnterHandler(m, top, c);
      ghost var e := m;
      if timer {
        e := TraceTick(m, top, c);
      }
      SavedCodeSegment(e, top, c);
      if mem[cpu.ctx.rsp + 8] % 4 != 0 {
        Swapgs();
      }
      SaveRegisters(e, top, c);
    }

    /** The exit code: registers popped, GS exchanged when it goes to user mode, `iretq`. */
    method ResumeFrom(p: nat)
      requires FramePresent(mem, p)
      modifies this`cpu
      ensures cpu == SwapIf(old(cpu).(ctx := FrameAt(mem, p)), FromUser(FrameAt(mem, p)))
    {
      hide FramePresent, FrameAt;
      SetRsp(p);
      RestoreRegisters(p);
      FrameCodeSegment(mem, p);
      if mem[cpu.ctx.rsp + 8] % 4 != 0 {
        Swapgs();
      }
      Iretq(p);
    }

    /** The timer interrupt (`timer`) or the yield interrupt, from entry to `iretq`. */
    method HandleInterrupt(lockFree: bool, timer: bool)
      requires Inv(State()) && Legal(State(), Scheduling.Tick(lockFree))
      modifies this
      ensures HasFrame(old(State()), Scheduling.Tick(lockFree))
      ensures State() == Step(old(State()), Scheduling.Tick(lockFree))
    {
      hide FrameAt, FramePresent, SaveFrame, Inv, EntryTop, FromUser, Legal, HasFrame, Step, TimerTick;
      ghost var s, top := State(), EntryTop(cpu);
      TickReady(s, lockFree);
      EnterAndSave(timer, mem, top, cpu.ctx);
      ghost var entered := cpu;
      var next := Tick(cpu.ctx.rsp, lockFree);
      if next.None? {
        mode := Halted;
        HaltedIs(s, lockFree, State());
        return;
      }
      ghost var ready := cpu;
      RestoredFrame(s, lockFree);
      ResumeFrom(next.value);
      ResumedIs(s, lockFree, entered, ready, State());
    }

    /** `syscall`, then `syscall_entry` up to the dispatch call. */
    method EnterSyscall()
      requires Inv(State()) && Legal(State(), SyscallEnter)
      modifies this
      ensures State() == Step(old(State()), SyscallEnter)
    {
      hide Pushed, FrameAt, FramePresent, SaveFrame, Inv;
      ghost var s, m, c := State(), mem, UserCall(cpu.ctx);
      ghost var top := cpu.cpuStack;
      EnterReady(s);
      var user := cpu;
      SetReg(RCX, cpu.ctx.rip);
      SetReg(R11, cpu.ctx.rflags);
      Swapgs();
      if cpu.gs != PER_CPU {
        // The store to gs:[8] faults in the kernel.
        cpu, mode := user, Crashed;
        return;
      }
      cpu := cpu.(userRsp := cpu.ctx.rsp);
      SetRsp(cpu.cpuStack);
      var words := [0x23, cpu.userRsp, cpu.ctx.regs[R11], 0x2B, cpu.ctx.regs[RCX]];
      PushedNone(m, top, PushOrder(c));
      ghost var before := cpu;
      var k := 0;
      while k < 5
        invariant k <= 5 && mem == Pushed(m, top, PushOrder(c), k)
                  && cpu == before.(ctx := before.ctx.(rsp := top - 8 * k))
        invariant State() == s.(cpu := cpu, mem := mem)
      {
        FrameSlot(m, top, k);
        PushWord(words[k], m, top, PushOrder(c), k);
        k := k + 1;
      }
      SaveRegisters(m, top, c);
      SetReg(RDI, cpu.ctx.rsp);
      cpu := cpu.(ctx := cpu.ctx.(cs := 0x08, ss := 0x10));
      calls := calls[sched.current.value.id := s.cpu.ctx];
    }

    /** `syscall_entry` from the return of the dispatch call to `iretq`. */
    method LeaveSyscall()
      requires Inv(State()) && Legal(State(), SyscallLeave)
      modifies this
      ensures HasFrame(old(State()), SyscallLeave) && State() == Step(old(State()), SyscallLeave)
    {
      hide FrameAt, FramePresent, Inv;
      ghost var s := State();
      LeaveKeeps(s);
      var p := cpu.ctx.rsp;
      RaxSlot(mem, p, cpu.ctx.regs[RAX]);
      mem := mem[p + 14 * 8 := cpu.ctx.regs[RAX]];
      RestoreRegisters(p);
      Swapgs();
      Iretq(p);
      calls := calls - {sched.current.value.id};
    }

    /** `start_scheduling`: dispatches the first task. With none queued it panics. */
    method StartScheduling()
      requires Inv(State()) && Legal(State(), Start)
      modifies this
      ensures HasFrame(old(State()), Start) && State() == Step(old(State()), Start)
    {
      hide FrameAt, FramePresent, Inv;
      StartKeeps(State());
      if sched.queue == [] {
        mode := Crashed;
        return;
      }
      var task := sched.queue[0];
      sched := sched.(queue := sched.queue[1..]);
      SwitchToTask(task);
      task := task.(state := Running);
      sched := sched.(current := Some(task), currentId := Some(task.id));
      ResumeFrom(task.stackPtr);
    }

    /** `exit_current_task` up to its yield. */
    method ExitCurrentTask()
      requires Legal(State(), Exit)
      modifies this`sched
      ensures State() == Step(old(State()), Exit)
    {
      if sched.current.Some? {
        sched := sched.(current := Some(sched.current.value.(state := Zombie)));
      }
    }

    /** `Task::new` (or `Task::new_user`) and `add_task`: a new stack with the twenty words of the first
        context written from the top down, and the task at the end of the queue. */
    method SpawnTask(user: bool, entry: nat, userStack: nat, pml4: nat, stale: StackMem)
      requires Legal(State(), Spawn(user, entry, userStack, pml4, stale))
      modifies this`mem, this`nextId, this`sched
      ensures State() == Step(old(State()), Spawn(user, entry, userStack, pml4, stale))
    {
      hide Pushed, FramePresent, StackPresent;
      var id := nextId;
      nextId := nextId + 1;
      var top := StackTop(id);
      mem := mem + stale;
      ghost var m := mem;
      var words := [if user then 0x23 else 0x10, if user then userStack else top, 0x202, if user then 0x2B
                    else 0x08, entry]
      + seq(15, _ => 0);
      ghost var c := InitialContext(user, entry, userStack, top);
      assert words == PushOrder(c);
      NewStackFrame(m, stale, id);
      PushedNone(m, top, words);
      var ptr, k := top, 0;
      while k < 20
        invariant k <= 20 && ptr == top - 8 * k && mem == Pushed(m, top, words, k)
        invariant sched == old(sched) && nextId == id + 1
      {
        FrameSlot(m, top, k);
        PushedNext(m, top, words, k);
        ptr := ptr - 8;
        mem := mem[ptr := words[k]];
        k := k + 1;
      }
      sched := sched.(queue := sched.queue + [Task(id, ptr, top, pml4, Ready)], taskCount := sched.taskCount + 1);
    }
  }
}
