/** What holds over every run of the scheduler machine. */
module SchedulerRuns {
  import opened Words
  import opened Contexts
  import opened Scheduling

  /** Each state follows from the one before by a legal event. */
  ghost predicate Run(trace: seq<Machine>, evs: seq<Event>) {
    && |trace| == |evs| + 1
    && forall i :: 0 <= i < |evs| ==>
         Legal(trace[i], evs[i]) && HasFrame(trace[i], evs[i])
         && trace[i + 1] == Step(trace[i], evs[i])
  }

  lemma BootedInv(s: Machine)
    requires Booted(s)
    ensures Inv(s) && GsOk(s)
  {}

  /** In every reachable state: queued tasks are ready with a whole frame on their own stack, the
      current one is running or dead and the TSS, the per-CPU stack and CR3 are its own, and the
      count is queued plus current plus retired. */
  lemma {:induction false} RunInv(trace: seq<Machine>, evs: seq<Event>, i: nat)
    requires Run(trace, evs) && Inv(trace[0]) && i <= |evs|
    ensures Inv(trace[i])
  {
    hide Inv, Legal, HasFrame, Step;
    if i > 0 {
      RunInv(trace, evs, i - 1);
      StepKeeps(trace[i - 1], evs[i - 1]);
    }
  }

  // ---- Context preservation ----

  ghost predicate IsCurrent(s: Machine, x: nat) {
    s.sched.current.Some? && s.sched.current.value.id == x
  }

  ghost predicate At(s: Machine, k: nat, x: nat) {
    k < |s.sched.queue| && s.sched.queue[k].id == x
  }

  ghost predicate Waiting(s: Machine, x: nat) {
    exists k: nat :: At(s, k, x)
  }

  /** Task `x` waits, and the frame at its stack pointer holds context `c`. */
  ghost predicate SavedAs(s: Machine, x: nat, c: Context) {
    exists k: nat :: At(s, k, x) && FramePresent(s.mem, s.sched.queue[k].stackPtr)
      && FrameAt(s.mem, s.sched.queue[k].stackPtr) == c
  }

  /** Where task `k` of the queue goes in one step. */
  ghost predicate QueueMoves(s: Machine, s': Machine, shift: nat) {
    && shift <= |s.sched.queue| && |s.sched.queue| - shift <= |s'.sched.queue|
    && forall k :: shift <= k < |s.sched.queue| ==>
         && s'.sched.queue[k - shift] == s.sched.queue[k]
         && FramePresent(s.mem, s.sched.queue[k].stackPtr) && FramePresent(s'.mem, s.sched.queue[k].stackPtr)
         && FrameAt(s'.mem, s.sched.queue[k].stackPtr) == FrameAt(s.mem, s.sched.queue[k].stackPtr)
  }

  ghost predicate GsOk(s: Machine) {
    if FromUser(s.cpu.ctx) then s.cpu.kernelGs == PER_CPU && s.cpu.gs == USER_GS
    else s.cpu.gs == PER_CPU && s.cpu.kernelGs == USER_GS
  }

  /** The step takes the front of the queue. */
  ghost predicate Dispatches(s: Machine, e: Event) {
    (e.Tick? && Switches(s, e.lockFree)) || (e.Start? && s.sched.queue != [])
  }

  lemma OwnMoves(s: Machine, s': Machine, limit: nat)
    requires Inv(s) && s.sched.current.Some? && OnlyBelow(s.mem, s'.mem, s.sched.current.value.id, limit)
    requires s'.sched.queue == s.sched.queue
    ensures QueueMoves(s, s', 0)
  {
    hide FramePresent, FrameAt, OnlyBelow, Untouched;
    forall k | 0 <= k < |s.sched.queue|
      ensures FramePresent(s.mem, s.sched.queue[k].stackPtr) && FramePresent(s'.mem, s.sched.queue[k].stackPtr)
      ensures FrameAt(s'.mem, s.sched.queue[k].stackPtr) == FrameAt(s.mem, s.sched.queue[k].stackPtr)
    {
      var q := s.sched.queue[k];
      assert QueuedOk(s, q);
      OnlyBelowUntouched(s.mem, s'.mem, s.sched.current.value.id, limit, q.id);
      FrameUntouched(s.mem, s'.mem, q.id, q.stackPtr);
    }
  }

  lemma UntouchedMoves(s: Machine, s': Machine)
    requires Inv(s) && s.sched.queue <= s'.sched.queue
    requires forall id: nat :: id < s.nextId ==> Untouched(s.mem, s'.mem, id)
    ensures QueueMoves(s, s', 0)
  {
    hide FramePresent, FrameAt, Untouched;
    forall k | 0 <= k < |s.sched.queue|
      ensures FramePresent(s.mem, s.sched.queue[k].stackPtr) && FramePresent(s'.mem, s.sched.queue[k].stackPtr)
      ensures FrameAt(s'.mem, s.sched.queue[k].stackPtr) == FrameAt(s.mem, s.sched.queue[k].stackPtr)
    {
      var q := s.sched.queue[k];
      assert QueuedOk(s, q);
      FrameUntouched(s.mem, s'.mem, q.id, q.stackPtr);
    }
  }

  lemma TickMoves(s: Machine, lockFree: bool)
    requires Inv(s) && Legal(s, Tick(lockFree))
    ensures HasFrame(s, Tick(lockFree))
    ensures QueueMoves(s, Step(s, Tick(lockFree)), if Switches(s, lockFree) then 1 else 0)
  {
    hide FramePresent, FrameAt, OnlyBelow, Untouched, SaveFrame;
    var e := Tick(lockFree);
    if s.sched.current.None? {
      TickBoot(s, lockFree);
      UntouchedMoves(s, Step(s, e));
    } else {
      TickSaved(s, s.sched.current.value, lockFree);
      if Stays(s, lockFree) {
        TickStays(s, lockFree);
        OwnMoves(s, Step(s, e), EntryTop(s.cpu));
      } else if Switches(s, lockFree) {
        TickSwitches(s, lockFree);
        OwnMoves(s, Step(s, e).(sched := s.sched), EntryTop(s.cpu));
      } else {
        TickHalts(s, lockFree);
      }
    }
  }

  /** In one step the queue moves up by one exactly when the front is dispatched, and every task that
      stays in it keeps its place behind the others and its saved context. */
  lemma StepMoves(s: Machine, e: Event)
    requires Inv(s) && Legal(s, e)
    ensures HasFrame(s, e) && QueueMoves(s, Step(s, e), if Dispatches(s, e) then 1 else 0)
  {
    hide FramePresent, FrameAt, OnlyBelow, Untouched, SaveFrame, QueueMoves;
    StepKeeps(s, e);
    match e
    case Tick(lockFree) => TickMoves(s, lockFree);
    case Spawn(_, _, _, _, _) =>
      SpawnKeeps(s, e);
      UntouchedMoves(s, Step(s, e));
    case Exit =>
      OnlyBelowRefl(s.mem, s.sched.current.value.id, 0);
      OwnMoves(s, Step(s, e), 0);
    case Compute(_, _) =>
      if s.sched.current.Some? {
        OnlyBelowRefl(s.mem, s.sched.current.value.id, Limit(s, s.sched.current.value.id));
        OwnMoves(s, Step(s, e), Limit(s, s.sched.current.value.id));
      } else {
        SameMemMoves(s, Step(s, e), 0);
      }
    case SyscallEnter =>
      CurrentFacts(s);
      SaveAtTop(s.mem, s.sched.current.value.id, UserCall(s.cpu.ctx));
      if s.cpu.kernelGs == PER_CPU {
        OwnMoves(s, Step(s, e), StackTop(s.sched.current.value.id));
      } else {
        SameMemMoves(s, Step(s, e), 0);
      }
    case SyscallLeave =>
      RaxBelow(s.mem, s.sched.current.value.id, s.cpu.ctx.regs[RAX]);
      OwnMoves(s, Step(s, e), StackTop(s.sched.current.value.id));
    case Fault =>
      PushedBelow(s.mem, s.sched.current.value.id, PushOrder(s.cpu.ctx), 5);
      OwnMoves(s, Step(s, e), StackTop(s.sched.current.value.id));
    case Start => SameMemMoves(s, Step(s, e), if s.sched.queue == [] then 0 else 1);
  }

  lemma SameMemMoves(s: Machine, s': Machine, shift: nat)
    requires Inv(s) && s'.mem == s.mem && shift <= |s.sched.queue| && s'.sched.queue == s.sched.queue[shift..]
    ensures QueueMoves(s, s', shift)
  {
    forall k | 0 <= k < |s.sched.queue| ensures FramePresent(s.mem, s.sched.queue[k].stackPtr) {
      assert QueuedOk(s, s.sched.queue[k]);
    }
  }

  /** What a step does to the current task: it keeps running, is queued with its context saved,
      or is dropped for good. */
  lemma CurrentMoves(s: Machine, e: Event, x: nat)
    requires Inv(s) && Legal(s, e) && IsCurrent(s, x)
    ensures HasFrame(s, e)
    ensures var s' := Step(s, e);
            || IsCurrent(s', x)
            || (SavedAs(s', x, s.cpu.ctx) && Dispatches(s, e) && s.sched.current.value.state.Running?)
            || (x in s'.retired && e.Tick? && e.lockFree && s.sched.current.value.state.Zombie?)
  {
    hide FramePresent, FrameAt, OnlyBelow, Untouched, SaveFrame, QueuedOk, StackPresent;
    StepKeeps(s, e);
    if e.Tick? {
      TickSaved(s, s.sched.current.value, e.lockFree);
      if Stays(s, e.lockFree) {
        TickStays(s, e.lockFree);
      } else if Switches(s, e.lockFree) {
        TickSwitches(s, e.lockFree);
        var s' := Step(s, e);
        if s.sched.current.value.state.Running? {
          assert At(s', |s.sched.queue| - 1, x);
        }
      } else {
        TickHalts(s, e.lockFree);
      }
    }
  }

  /** What a dispatch does: the front task becomes current, in its saved context. */
  lemma DispatchRestores(s: Machine, e: Event)
    requires Inv(s) && Legal(s, e) && Dispatches(s, e)
    ensures HasFrame(s, e) && FramePresent(s.mem, s.sched.queue[0].stackPtr)
    ensures IsCurrent(Step(s, e), s.sched.queue[0].id)
    ensures Step(s, e).cpu.ctx == FrameAt(s.mem, s.sched.queue[0].stackPtr)
    ensures Step(s, e).mode == Live
  {
    hide FramePresent, FrameAt, SaveFrame;
    StepKeeps(s, e);
    assert QueuedOk(s, s.sched.queue[0]);
    if e.Tick? {
      TickSwitches(s, e.lockFree);
    }
  }

  lemma WaitingNotCurrent(s: Machine, x: nat)
    requires Inv(s) && Waiting(s, x)
    ensures !IsCurrent(s, x) && x !in s.retired
  {
    hide QueuedOk, CurrentOk, StackPresent;
  }

  /** One step of a waiting task: it keeps waiting with the same saved context, or is dispatched in it. */
  lemma WaitStep(s: Machine, e: Event, x: nat, c: Context)
    requires Inv(s) && Legal(s, e) && SavedAs(s, x, c)
    ensures HasFrame(s, e)
    ensures SavedAs(Step(s, e), x, c) || (IsCurrent(Step(s, e), x) && Step(s, e).cpu.ctx == c)
  {
    hide FramePresent, FrameAt, Inv, Legal, Step, Dispatches;
    StepMoves(s, e);
    var s' := Step(s, e);
    var k: nat :| At(s, k, x) && FramePresent(s.mem, s.sched.queue[k].stackPtr)
      && FrameAt(s.mem, s.sched.queue[k].stackPtr) == c;
    if Dispatches(s, e) {
      if k == 0 {
        DispatchRestores(s, e);
      } else {
        assert At(s', k - 1, x);
      }
    } else {
      assert At(s', k, x);
    }
  }

  /** While a task waits, its saved context stays as it is, whatever the others do. */
  lemma {:induction false} SavedWhileWaiting(trace: seq<Machine>, evs: seq<Event>, x: nat, c: Context, a: nat, b: nat)
    requires Run(trace, evs) && Inv(trace[0]) && a <= b <= |evs| && SavedAs(trace[a], x, c)
    requires forall k :: a <= k <= b ==> Waiting(trace[k], x)
    ensures SavedAs(trace[b], x, c)
  {
    hide Inv, Legal, HasFrame, Step, SavedAs, Waiting;
    if a < b {
      SavedWhileWaiting(trace, evs, x, c, a, b - 1);
      RunInv(trace, evs, b - 1);
      RunInv(trace, evs, b);
      WaitStep(trace[b - 1], evs[b - 1], x, c);
      WaitingNotCurrent(trace[b], x);
    }
  }

  /** A task that is switched out at step `i` and next runs at `j + 1` goes on with exactly the
      registers, the flags, the stack and the code address it was interrupted with. */
  lemma ContextPreserved(trace: seq<Machine>, evs: seq<Event>, x: nat, i: nat, j: nat)
    requires Run(trace, evs) && Inv(trace[0]) && i < j < |evs|
    requires IsCurrent(trace[i], x) && IsCurrent(trace[j + 1], x)
    requires forall k :: i < k <= j ==> Waiting(trace[k], x)
    ensures trace[j + 1].cpu.ctx == trace[i].cpu.ctx
  {
    hide Inv, Legal, HasFrame, Step, SavedAs, Waiting, Dispatches;
    RunInv(trace, evs, i);
    RunInv(trace, evs, i + 1);
    WaitingNotCurrent(trace[i + 1], x);
    CurrentMoves(trace[i], evs[i], x);
    ResumedAsSaved(trace, evs, x, trace[i].cpu.ctx, i + 1, j);
  }

  lemma ResumedAsSaved(trace: seq<Machine>, evs: seq<Event>, x: nat, c: Context, a: nat, j: nat)
    requires Run(trace, evs) && Inv(trace[0]) && a <= j < |evs| && SavedAs(trace[a], x, c) && IsCurrent(trace[j + 1], x)
    requires forall k :: a <= k <= j ==> Waiting(trace[k], x)
    ensures trace[j + 1].cpu.ctx == c
  {
    hide Inv, Legal, HasFrame, Step, Dispatches;
    SavedWhileWaiting(trace, evs, x, c, a, j);
    RunInv(trace, evs, j);
    RunInv(trace, evs, j + 1);
    WaitStep(trace[j], evs[j], x, c);
    if SavedAs(trace[j + 1], x, c) {
      var k: nat :| At(trace[j + 1], k, x);
      WaitingNotCurrent(trace[j + 1], x);
    }
  }

  /** A new task first runs at its entry point, with interrupts on, every register zero, and in its own ring on its
      own stack: the user stack it was given, or the top of its kernel stack. */
  lemma FirstRunIsInitial(trace: seq<Machine>, evs: seq<Event>, i: nat, j: nat)
    requires Run(trace, evs) && Inv(trace[0]) && i < j < |evs| && evs[i].Spawn?
    requires IsCurrent(trace[j + 1], trace[i].nextId)
    requires forall k :: i < k <= j ==> Waiting(trace[k], trace[i].nextId)
    ensures var c := trace[j + 1].cpu.ctx;
            && c.rip == evs[i].entry && c.rflags == 0x202 && (forall k :: 0 <= k < 15 ==> c.regs[k] == 0)
            && (evs[i].user ==> c.cs == 0x2B && c.ss == 0x23 && c.rsp == evs[i].userStack)
            && (!evs[i].user ==>
                  c.cs == 0x08 && c.ss == 0x10
                  && c.rsp == 0xFFFF_FE00_0000_0000 + trace[i].nextId * 0xA000 + 0x9000)
  {
    hide Inv, FramePresent, FrameAt, SaveFrame;
    RunInv(trace, evs, i);
    SpawnKeeps(trace[i], evs[i]);
    var s', x := trace[i + 1], trace[i].nextId;
    assert At(s', |trace[i].sched.queue|, x);
    ResumedAsSaved(trace, evs, x, InitialContext(evs[i].user, evs[i].entry, evs[i].userStack, StackTop(x)), i + 1, j);
  }

  // ---- Retired tasks ----

  lemma RetiredGrows(s: Machine, e: Event)
    requires Inv(s) && Legal(s, e) && HasFrame(s, e)
    ensures s.retired <= Step(s, e).retired && s.nextId <= Step(s, e).nextId
  {
    hide FramePresent, FrameAt, SaveFrame, QueuedOk, StackPresent;
  }

  /** A retired task never runs and never waits again. */
  lemma {:induction false} RetiredForGood(trace: seq<Machine>, evs: seq<Event>, x: nat, i: nat, j: nat)
    requires Run(trace, evs) && Inv(trace[0]) && i <= j <= |evs| && x in trace[i].retired
    ensures x in trace[j].retired && !IsCurrent(trace[j], x) && !Waiting(trace[j], x)
  {
    hide Legal, HasFrame, Step, QueuedOk, CurrentOk, StackPresent;
    RunInv(trace, evs, j);
    if i < j {
      RetiredForGood(trace, evs, x, i, j - 1);
      RunInv(trace, evs, j - 1);
      RetiredGrows(trace[j - 1], evs[j - 1]);
    }
  }

  /** The system halts only when every task ever added has exited. */
  lemma HaltedAllExited(s: Machine, x: nat)
    requires Inv(s) && s.mode == Halted && 1 <= x < s.nextId
    ensures x in s.retired
  {
    hide QueuedOk, CurrentOk, StackPresent;
    assert s.retired <= IdsBelow(s.nextId);
    SubsetOfSameSize(s.retired, IdsBelow(s.nextId));
  }

  ghost function IdsBelow(n: nat): (r: set<nat>)
    ensures forall i :: i in r <==> 1 <= i < n
    ensures n >= 1 ==> |r| == n - 1
  {
    if n <= 1 then {} else IdsBelow(n - 1) + {n - 1}
  }

  lemma SubsetOfSameSize(a: set<nat>, b: set<nat>)
    requires a <= b && |a| == |b|
    ensures a == b
  {
    assert |b| == |a| + |b - a| by { assert b == a + (b - a); }
  }

  // ---- Bounded waiting ----

  /** The ticks among the events `i..j` that get the lock. */
  ghost function LockedTicks(evs: seq<Event>, i: nat, j: nat): nat
    requires i <= j <= |evs|
  {
    if i == j then 0 else LockedTicks(evs, i, j - 1) + if evs[j - 1].Tick? && evs[j - 1].lockFree then 1 else 0
  }

  lemma StaysStarted(s: Machine, e: Event)
    requires Inv(s) && Legal(s, e) && HasFrame(s, e) && s.sched.current.Some? && s.sched.queue != []
    ensures Step(s, e).sched.current.Some?
    ensures Dispatches(s, e) <==> e.Tick? && e.lockFree
  {
    hide FramePresent, FrameAt, SaveFrame, QueuedOk, StackPresent;
    if e.Tick? {
      if Stays(s, e.lockFree) {
        TickStays(s, e.lockFree);
      } else {
        TickSwitches(s, e.lockFree);
      }
    }
  }

  /** Once scheduling has started, a task at place `k` of the queue is at place `k - n` after `n` ticks
      that got the lock, whatever additions, exits, system calls, faults and failed ticks came between. */
  lemma {:induction false} PlaceInQueue(trace: seq<Machine>, evs: seq<Event>, x: nat, i: nat, j: nat, k: nat)
    requires Run(trace, evs) && Inv(trace[0]) && i <= j <= |evs| && trace[i].sched.current.Some?
    requires At(trace[i], k, x) && LockedTicks(evs, i, j) <= k
    ensures At(trace[j], k - LockedTicks(evs, i, j), x) && trace[j].sched.current.Some?
  {
    hide Inv, Legal, HasFrame, Step, Dispatches;
    if i < j {
      PlaceInQueue(trace, evs, x, i, j - 1, k);
      RunInv(trace, evs, j - 1);
      StepMoves(trace[j - 1], evs[j - 1]);
      StaysStarted(trace[j - 1], evs[j - 1]);
    }
  }

  /** Bounded waiting: exactly the tick after those `k` dispatches it. */
  lemma BoundedWaiting(trace: seq<Machine>, evs: seq<Event>, x: nat, i: nat, j: nat, k: nat)
    requires Run(trace, evs) && Inv(trace[0]) && i <= j < |evs| && trace[i].sched.current.Some?
    requires At(trace[i], k, x) && LockedTicks(evs, i, j) == k && evs[j] == Tick(true)
    ensures IsCurrent(trace[j + 1], x)
    ensures forall m :: i <= m <= j ==> !IsCurrent(trace[m], x)
  {
    hide Inv, Legal, HasFrame, Step, Dispatches, LockedTicks;
    PlaceInQueue(trace, evs, x, i, j, k);
    RunInv(trace, evs, j);
    StaysStarted(trace[j], evs[j]);
    DispatchRestores(trace[j], evs[j]);
    forall m | i <= m <= j ensures !IsCurrent(trace[m], x) {
      TicksGrow(evs, i, m, j);
      PlaceInQueue(trace, evs, x, i, m, k);
      RunInv(trace, evs, m);
      WaitingNotCurrent(trace[m], x);
    }
  }

  lemma {:induction false} TicksGrow(evs: seq<Event>, i: nat, m: nat, j: nat)
    requires i <= m <= j <= |evs|
    ensures LockedTicks(evs, i, m) <= LockedTicks(evs, i, j)
  {
    if m < j {
      TicksGrow(evs, i, m, j - 1);
    }
  }

  // ---- GS ----

  lemma ZombieInKernel(s: Machine)
    requires Inv(s) && s.sched.current.Some? && s.sched.current.value.state.Zombie?
    ensures !FromUser(s.cpu.ctx)
  {}

  /** Every event but a user fault keeps GS right, although the entry and the next exit may belong
      to different tasks in different rings; a user fault breaks it at once. */
  lemma GsStep(s: Machine, e: Event)
    requires Inv(s) && Legal(s, e) && HasFrame(s, e) && GsOk(s)
    ensures GsOk(Step(s, e)) <==> !e.Fault?
  {
    hide FramePresent, FrameAt, SaveFrame, QueuedOk, StackPresent, IdsOk;
    if e.Tick? {
      if s.sched.current.None? {
        TickBoot(s, e.lockFree);
      } else if Stays(s, e.lockFree) {
        TickStays(s, e.lockFree);
      } else if Switches(s, e.lockFree) {
        TickSwitches(s, e.lockFree);
      } else {
        TickHalts(s, e.lockFree);
        ZombieInKernel(s);
      }
    } else if e.SyscallLeave? {
      LeaveKeeps(s);
      assert FromUser(Step(s, e).cpu.ctx);
    }
  }

  /** Kernel code always runs with GS at the per-CPU block and user code with KernelGsBase there,
      in every state of a run, exactly when no user fault occurs in it. */
  lemma GsParity(trace: seq<Machine>, evs: seq<Event>)
    requires Run(trace, evs) && Booted(trace[0])
    ensures (forall i :: 0 <= i < |trace| ==> GsOk(trace[i])) <==> (forall i :: 0 <= i < |evs| ==> !evs[i].Fault?)
  {
    hide Inv, Legal, HasFrame, Step, GsOk;
    BootedInv(trace[0]);
    if forall i :: 0 <= i < |trace| ==> GsOk(trace[i]) {
      forall i | 0 <= i < |evs| ensures !evs[i].Fault? {
        RunInv(trace, evs, i);
        GsStep(trace[i], evs[i]);
        assert GsOk(trace[i + 1]);
      }
    } else if forall i :: 0 <= i < |evs| ==> !evs[i].Fault? {
      forall i | 0 <= i < |trace| ensures GsOk(trace[i]) {
        GsUpTo(trace, evs, i);
      }
    }
  }

  lemma {:induction false} GsUpTo(trace: seq<Machine>, evs: seq<Event>, i: nat)
    requires Run(trace, evs) && Inv(trace[0]) && GsOk(trace[0]) && i <= |evs|
    requires forall k :: 0 <= k < i ==> !evs[k].Fault?
    ensures GsOk(trace[i])
  {
    hide Inv, Legal, HasFrame, Step, GsOk;
    if i > 0 {
      GsUpTo(trace, evs, i - 1);
      RunInv(trace, evs, i - 1);
      GsStep(trace[i - 1], evs[i - 1]);
    }
  }

  /** Without a user fault no system call ever faults on entry. */
  lemma NoFaultNoCrash(trace: seq<Machine>, evs: seq<Event>, i: nat)
    requires Run(trace, evs) && Booted(trace[0]) && i < |evs| && trace[i + 1].mode == Crashed
    requires forall k :: 0 <= k < i ==> !evs[k].Fault?
    ensures evs[i].Start? && trace[i].sched.queue == []
  {
    hide FramePresent, FrameAt, SaveFrame, Inv;
    BootedInv(trace[0]);
    GsUpTo(trace, evs, i);
  }

  /** After a user fault the next switch to user mode leaves GS exchanged, and that task's next
      system call takes the kernel down. */
  lemma FaultThenSyscallCrashes(s: Machine)
    requires Inv(s) && GsOk(s) && Legal(s, Fault)
    requires s.sched.queue != [] && FromUser(FrameAtFront(s))
    ensures Legal(Step(s, Fault), Tick(true)) && HasFrame(Step(s, Fault), Tick(true))
    ensures var s2 := Step(Step(s, Fault), Tick(true));
            Legal(s2, SyscallEnter) && Step(s2, SyscallEnter).mode == Crashed
  {
    hide FramePresent, FrameAt, SaveFrame, QueuedOk, StackPresent, IdsOk;
    FaultKeeps(s);
    var s1 := Step(s, Fault);
    StackLayout(s.sched.current.value.id);
    StepMoves(s, Fault);
    TickSwitches(s1, true);
  }

  /** A stack of zeros. */
  ghost function BlankStack(id: nat): StackMem {
    map a | StackBottom(id) <= a < StackTop(id) && a % 8 == 0 :: 0
  }

  /** Before scheduling starts, with `n` user tasks queued. */
  ghost predicate UsersQueued(s: Machine, n: nat) {
    && Inv(s) && GsOk(s) && s.mode == Live && !FromUser(s.cpu.ctx) && s.sched.current.None?
    && s.nextId == n + 1 && |s.sched.queue| == n
    && forall k :: 0 <= k < n ==>
         FramePresent(s.mem, s.sched.queue[k].stackPtr) && FromUser(FrameAt(s.mem, s.sched.queue[k].stackPtr))
  }

  lemma SpawnUser(s: Machine, n: nat, entry: nat, userStack: nat, pml4: nat) returns (e: Event)
    requires UsersQueued(s, n) && n < MAX_TASK_ID
    ensures e == Spawn(true, entry, userStack, pml4, BlankStack(s.nextId)) && Legal(s, e) && HasFrame(s, e)
    ensures UsersQueued(Step(s, e), n + 1)
  {
    hide FramePresent, FrameAt, SaveFrame, IdsOk, Untouched, QueuedOk, Inv, GsOk;
    e := Spawn(true, entry, userStack, pml4, BlankStack(s.nextId));
    SpawnKeeps(s, e);
    GsStep(s, e);
    StepMoves(s, e);
    var s' := Step(s, e);
    forall k | 0 <= k < n + 1
      ensures FramePresent(s'.mem, s'.sched.queue[k].stackPtr) && FromUser(FrameAt(s'.mem, s'.sched.queue[k].stackPtr))
    {
      if k < n {
        assert s'.sched.queue[k - 0] == s.sched.queue[k];
      }
    }
  }

  /** User code runs, with another user task waiting. */
  ghost predicate UserRuns(s: Machine) {
    && Inv(s) && GsOk(s) && Legal(s, Fault) && HasFrame(s, Fault)
    && s.sched.queue != [] && FromUser(FrameAtFront(s))
  }

  lemma StartUser(s: Machine)
    requires UsersQueued(s, 2)
    ensures Legal(s, Start) && HasFrame(s, Start) && UserRuns(Step(s, Start))
  {
    hide FramePresent, FrameAt, IdsOk, QueuedOk, CurrentOk, GsOk, StackPresent;
    StepKeeps(s, Start);
    GsStep(s, Start);
    StepMoves(s, Start);
    DispatchRestores(s, Start);
    var s' := Step(s, Start);
    assert s'.sched.queue[1 - 1] == s.sched.queue[1];
  }

  lemma FaultRun(s: Machine)
    requires UserRuns(s)
    ensures var s1 := Step(s, Fault);
            && s1.mode == Live && !GsOk(s1) && Legal(s1, Tick(true)) && HasFrame(s1, Tick(true))
            && var s2 := Step(s1, Tick(true));
               && s2.mode == Live && Legal(s2, SyscallEnter) && HasFrame(s2, SyscallEnter)
               && Step(s2, SyscallEnter).mode == Crashed
  {
    hide FramePresent, FrameAt, Inv, GsOk, FrameAtFront;
    GsStep(s, Fault);
    FaultThenSyscallCrashes(s);
  }

  /** Such a run from boot exists, whatever the boot state: two user tasks are spawned, the first is started and faults,
      and the second makes a system call. */
  lemma CrashFromBoot(s: Machine) returns (trace: seq<Machine>, evs: seq<Event>)
    requires Booted(s)
    ensures Run(trace, evs) && trace[0] == s && |evs| == 6 && evs[3] == Fault && evs[5] == SyscallEnter
    ensures GsOk(trace[3]) && !GsOk(trace[4]) && trace[5].mode == Live && trace[6].mode == Crashed
  {
    hide Inv, Step, GsOk, Legal, HasFrame, FromUser, FrameAtFront, UsersQueued, Run, Booted;
    NoneQueued(s);
    var e0 := SpawnUser(s, 0, 0x40_0000, 0x7000_0000_8000, 1);
    var s1 := Step(s, e0);
    RunOne(s, e0);
    var e1 := SpawnUser(s1, 1, 0x40_0000, 0x7000_0000_8000, 2);
    var s2 := Step(s1, e1);
    RunNext([s, s1], [e0], e1);
    assert [s, s1] + [s2] == [s, s1, s2] && [e0] + [e1] == [e0, e1];
    StartUser(s2);
    var s3 := Step(s2, Start);
    RunNext([s, s1, s2], [e0, e1], Start);
    assert [s, s1, s2] + [s3] == [s, s1, s2, s3] && [e0, e1] + [Start] == [e0, e1, Start];
    FaultRun(s3);
    var s4 := Step(s3, Fault);
    RunNext([s, s1, s2, s3], [e0, e1, Start], Fault);
    assert [s, s1, s2, s3] + [s4] == [s, s1, s2, s3, s4] && [e0, e1, Start] + [Fault] == [e0, e1, Start, Fault];
    var s5 := Step(s4, Tick(true));
    RunNext([s, s1, s2, s3, s4], [e0, e1, Start, Fault], Tick(true));
    assert [s, s1, s2, s3, s4] + [s5] == [s, s1, s2, s3, s4, s5];
    assert [e0, e1, Start, Fault] + [Tick(true)] == [e0, e1, Start, Fault, Tick(true)];
    RunNext([s, s1, s2, s3, s4, s5], [e0, e1, Start, Fault, Tick(true)], SyscallEnter);
    trace := [s, s1, s2, s3, s4, s5] + [Step(s5, SyscallEnter)];
    evs := [e0, e1, Start, Fault, Tick(true)] + [SyscallEnter];
  }

  lemma NoneQueued(s: Machine)
    requires Booted(s)
    ensures UsersQueued(s, 0)
  {
    BootedInv(s);
  }

  lemma RunOne(s: Machine, e: Event)
    requires Legal(s, e) && HasFrame(s, e)
    ensures Run([s, Step(s, e)], [e])
  {
    hide Legal, HasFrame, Step;
  }

  lemma RunNext(trace: seq<Machine>, evs: seq<Event>, e: Event)
    requires Run(trace, evs) && Legal(trace[|evs|], e) && HasFrame(trace[|evs|], e)
    ensures Run(trace + [Step(trace[|evs|], e)], evs + [e])
  {
    hide Legal, HasFrame, Step;
  }

  ghost function FrameAtFront(s: Machine): Context
    requires Inv(s) && s.sched.queue != []
  {
    assert QueuedOk(s, s.sched.queue[0]);
    FrameAt(s.mem, s.sched.queue[0].stackPtr)
  }

  // ---- System calls ----

  ghost predicate LeavesCall(s: Machine, e: Event, x: nat) {
    e.SyscallLeave? && IsCurrent(s, x)
  }

  lemma CallStep(s: Machine, e: Event, x: nat)
    requires Inv(s) && Legal(s, e) && HasFrame(s, e) && x in s.calls && !LeavesCall(s, e, x)
    ensures x in Step(s, e).calls && Step(s, e).calls[x] == s.calls[x]
  {
    hide FramePresent, FrameAt, SaveFrame, QueuedOk, StackPresent, IdsOk;
  }

  lemma {:induction false} CallRemembered(trace: seq<Machine>, evs: seq<Event>, x: nat, i: nat, j: nat)
    requires Run(trace, evs) && Inv(trace[0]) && i <= j <= |evs| && x in trace[i].calls
    requires forall k :: i <= k < j ==> !LeavesCall(trace[k], evs[k], x)
    ensures x in trace[j].calls && trace[j].calls[x] == trace[i].calls[x]
  {
    hide Inv, Legal, HasFrame, Step;
    if i < j {
      CallRemembered(trace, evs, x, i, j - 1);
      RunInv(trace, evs, j - 1);
      CallStep(trace[j - 1], evs[j - 1], x);
    }
  }

  /** A system call returns to the user context it was made in, with only rax (the result), rcx and
      r11 changed, however often the task is switched out while it is in the kernel. */
  lemma SyscallTransparent(trace: seq<Machine>, evs: seq<Event>, x: nat, i: nat, j: nat)
    requires Run(trace, evs) && Inv(trace[0]) && i < j < |evs|
    requires evs[i].SyscallEnter? && IsCurrent(trace[i], x) && trace[i + 1].mode == Live
    requires LeavesCall(trace[j], evs[j], x) && forall k :: i < k < j ==> !LeavesCall(trace[k], evs[k], x)
    ensures var c, d := trace[i].cpu.ctx, trace[j + 1].cpu.ctx;
            && d.rip == c.rip && d.rsp == c.rsp && d.rflags == c.rflags && d.cs == 0x2B && d.ss == 0x23
            && d.regs[RAX] == trace[j].cpu.ctx.regs[RAX] && d.regs[RCX] == c.rip && d.regs[R11] == c.rflags
            && forall k :: 0 <= k < 15 && k != RAX && k != RCX && k != R11 ==> d.regs[k] == c.regs[k]
  {
    hide FramePresent, FrameAt, SaveFrame, Inv;
    RunInv(trace, evs, i);
    RunInv(trace, evs, j);
    assert trace[i + 1].calls[x] == trace[i].cpu.ctx;
    CallRemembered(trace, evs, x, i + 1, j);
    LeaveKeeps(trace[j]);
  }

  /** Twenty words from `p` up: the registers of a user's call, r15 first and rax last, then rip, cs, rflags, rsp and
      ss; rcx and r11 are as `syscall` leaves them. */
  ghost predicate HoldsCall(m: StackMem, p: nat, c: Context) {
    && FramePresent(m, p)
    && (forall k :: 0 <= k < 15 && k != 2 && k != 10 ==> m[p + 8 * (14 - k)] == c.regs[k])
    && m[p + 8 * 12] == m[p + 8 * 15] == c.rip && m[p + 8 * 4] == m[p + 8 * 17] == c.rflags
    && m[p + 8 * 16] == 0x2B && m[p + 8 * 18] == c.rsp && m[p + 8 * 19] == 0x23
  }

  lemma CallWords(m: StackMem, p: nat, c: Context)
    requires FramePresent(m, p) && FrameAt(m, p) == UserCall(c)
    ensures HoldsCall(m, p, c)
  {
    var d := UserCall(c);
    assert d.regs[2] == c.rip && d.regs[10] == c.rflags;
    forall k | 0 <= k < 15 && k != 2 && k != 10 ensures m[p + 8 * (14 - k)] == c.regs[k] {
      assert FrameAt(m, p).regs[k] == d.regs[k];
    }
    assert FrameAt(m, p).regs[2] == c.rip && FrameAt(m, p).regs[10] == c.rflags;
    assert m[p + 8 * 15] == d.rip && m[p + 8 * 16] == d.cs && m[p + 8 * 17] == d.rflags;
    assert m[p + 8 * 18] == d.rsp && m[p + 8 * 19] == d.ss;
  }

  /** What the dispatcher is given: rdi points at the user's registers, at the top of the caller's kernel stack. */
  lemma DispatchSees(s: Machine, x: nat)
    requires Inv(s) && Legal(s, SyscallEnter) && IsCurrent(s, x) && Step(s, SyscallEnter).mode == Live
    ensures var s' := Step(s, SyscallEnter);
            && s'.cpu.ctx.regs[RDI] == s'.cpu.ctx.rsp == StackTop(x) - 160 && !FromUser(s'.cpu.ctx)
            && HoldsCall(s'.mem, s'.cpu.ctx.rsp, s.cpu.ctx) && s'.cpu.userRsp == s.cpu.ctx.rsp
  {
    hide FramePresent, FrameAt, SaveFrame, Inv, OnlyBelow, UserCall, HoldsCall;
    CurrentFacts(s);
    SaveAtTop(s.mem, x, UserCall(s.cpu.ctx));
    CallWords(Step(s, SyscallEnter).mem, StackTop(x) - FRAME_SIZE, s.cpu.ctx);
  }
}
