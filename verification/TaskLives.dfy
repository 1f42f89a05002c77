/** The life of one task over every run: its first run, its own address space and stack, and its end. */
module TaskLives {
  import opened Words
  import opened Contexts
  import opened Scheduling
  import opened SchedulerRuns

  /** The current task ends itself, or a fault of its own ends it. */
  ghost predicate Ends(s: Machine, e: Event, x: nat) {
    (e.Exit? || e.Fault?) && IsCurrent(s, x)
  }

  predicate LockedTick(e: Event) {
    e.Tick? && e.lockFree
  }

  // ---- A task that ends is retired by the next tick ----

  ghost predicate Ended(s: Machine, x: nat) {
    IsCurrent(s, x) && s.sched.current.value.state.Zombie?
  }

  lemma StaysEnded(s: Machine, e: Event, x: nat)
    requires Inv(s) && Legal(s, e) && HasFrame(s, e) && !LockedTick(e)
    requires Ended(s, x) || Ends(s, e, x)
    ensures Ended(Step(s, e), x)
  {
    hide FramePresent, FrameAt, SaveFrame, QueuedOk, StackPresent, IdsOk, Pushed;
    if e.Tick? {
      TickStays(s, false);
    }
  }

  lemma {:induction false} EndedUntilTick(trace: seq<Machine>, evs: seq<Event>, x: nat, i: nat, j: nat)
    requires Run(trace, evs) && Inv(trace[0]) && i < j <= |evs| && Ends(trace[i], evs[i], x)
    requires forall k :: i < k < j ==> !LockedTick(evs[k])
    ensures Ended(trace[j], x)
    decreases j
  {
    hide Inv, Legal, HasFrame, Step, Ended;
    if i < j - 1 {
      EndedUntilTick(trace, evs, x, i, j - 1);
    }
    RunInv(trace, evs, j - 1);
    StaysEnded(trace[j - 1], evs[j - 1], x);
  }

  lemma EndedTick(s: Machine, x: nat)
    requires Inv(s) && Legal(s, Tick(true)) && HasFrame(s, Tick(true)) && Ended(s, x)
    ensures var s' := Step(s, Tick(true));
            && x in s'.retired && !IsCurrent(s', x) && !Waiting(s', x)
            && (s.sched.queue == [] ==> s'.mode == Halted)
            && (s.sched.queue != [] ==> s'.mode == Live && IsCurrent(s', s.sched.queue[0].id))
  {
    hide FramePresent, FrameAt, SaveFrame, QueuedOk, StackPresent;
    if s.sched.queue == [] {
      TickHalts(s, true);
    } else {
      TickSwitches(s, true);
    }
  }

  /** The first tick to get the lock after a task exits or faults retires it. The tick halts the system exactly
      when no other task waits, and else the longest waiting one runs. */
  lemma EndedIsRetired(trace: seq<Machine>, evs: seq<Event>, x: nat, i: nat, j: nat)
    requires Run(trace, evs) && Inv(trace[0]) && i < j < |evs| && Ends(trace[i], evs[i], x)
    requires LockedTick(evs[j]) && forall k :: i < k < j ==> !LockedTick(evs[k])
    ensures x in trace[j + 1].retired && !IsCurrent(trace[j + 1], x) && !Waiting(trace[j + 1], x)
    ensures trace[j].sched.queue == [] ==> trace[j + 1].mode == Halted
    ensures trace[j].sched.queue != [] ==>
              trace[j + 1].mode == Live && IsCurrent(trace[j + 1], trace[j].sched.queue[0].id)
  {
    hide Inv, Legal, HasFrame, Step, Ended, Waiting;
    EndedUntilTick(trace, evs, x, i, j);
    RunInv(trace, evs, j);
    EndedTick(trace[j], x);
  }

  // ---- No other task is retired ----

  lemma NewlyEnded(s: Machine, e: Event, x: nat)
    requires Inv(s) && Legal(s, e) && HasFrame(s, e)
    requires (x in Step(s, e).retired && x !in s.retired) || (Ended(Step(s, e), x) && !Ended(s, x))
    ensures Ended(s, x) || Ends(s, e, x)
  {
    hide FramePresent, FrameAt, SaveFrame, QueuedOk, StackPresent, IdsOk, Pushed;
    if e.Tick? && s.sched.current.Some? {
      if Stays(s, e.lockFree) {
        TickStays(s, e.lockFree);
      } else if Switches(s, e.lockFree) {
        TickSwitches(s, e.lockFree);
      } else {
        TickHalts(s, e.lockFree);
      }
    }
  }

  lemma {:induction false} EndedBefore(trace: seq<Machine>, evs: seq<Event>, x: nat, j: nat) returns (i: nat)
    requires Run(trace, evs) && Booted(trace[0]) && j <= |evs| && (x in trace[j].retired || Ended(trace[j], x))
    ensures i < j && Ends(trace[i], evs[i], x)
  {
    hide Inv, Legal, HasFrame, Step, Ended;
    BootedInv(trace[0]);
    if j == 0 {
      NoneEnded(trace[0], x);
    } else {
      RunInv(trace, evs, j - 1);
      if x in trace[j - 1].retired || Ended(trace[j - 1], x) {
        i := EndedBefore(trace, evs, x, j - 1);
      } else {
        NewlyEnded(trace[j - 1], evs[j - 1], x);
        i := j - 1;
      }
    }
  }

  lemma NoneEnded(s: Machine, x: nat)
    requires Booted(s)
    ensures x !in s.retired && !Ended(s, x)
  {}

  /** Over every run from boot a task is retired exactly when it exited or faulted and a tick got the lock after. */
  lemma RetiredIffEnded(trace: seq<Machine>, evs: seq<Event>, x: nat, n: nat)
    requires Run(trace, evs) && Booted(trace[0]) && n <= |evs|
    ensures x in trace[n].retired <==>
            exists i, j :: 0 <= i < j < n && Ends(trace[i], evs[i], x) && LockedTick(evs[j])
  {
    hide Inv, Legal, HasFrame, Step, Ends;
    BootedInv(trace[0]);
    if x in trace[n].retired {
      var i, j := RetiredAfter(trace, evs, x, n);
    }
    if i, j :| 0 <= i < j < n && Ends(trace[i], evs[i], x) && LockedTick(evs[j]) {
      var k := FirstLocked(evs, i, j);
      EndedIsRetired(trace, evs, x, i, k);
      RetiredForGood(trace, evs, x, k + 1, n);
    }
  }

  lemma {:induction false} RetiredAfter(trace: seq<Machine>, evs: seq<Event>, x: nat, n: nat) returns (i: nat, j: nat)
    requires Run(trace, evs) && Booted(trace[0]) && n <= |evs| && x in trace[n].retired
    ensures i < j < n && Ends(trace[i], evs[i], x) && LockedTick(evs[j])
  {
    hide Inv, Legal, HasFrame, Step, Ends;
    BootedInv(trace[0]);
    if n == 0 {
      NoneEnded(trace[0], x);
    } else if x in trace[n - 1].retired {
      i, j := RetiredAfter(trace, evs, x, n - 1);
    } else {
      RunInv(trace, evs, n - 1);
      RetiredByTick(trace[n - 1], evs[n - 1], x);
      i := EndedBefore(trace, evs, x, n - 1);
      j := n - 1;
    }
  }

  lemma RetiredByTick(s: Machine, e: Event, x: nat)
    requires Inv(s) && Legal(s, e) && HasFrame(s, e) && x in Step(s, e).retired && x !in s.retired
    ensures LockedTick(e) && Ended(s, x)
  {
    hide FramePresent, FrameAt, SaveFrame, QueuedOk, StackPresent, IdsOk, Pushed;
    if e.Tick? && s.sched.current.Some? && !e.lockFree {
      TickStays(s, false);
    } else {
      NewlyEnded(s, e, x);
    }
  }

  lemma {:induction false} FirstLocked(evs: seq<Event>, i: nat, j: nat) returns (k: nat)
    requires i < j < |evs| && LockedTick(evs[j])
    ensures i < k <= j && LockedTick(evs[k]) && forall l :: i < l < k ==> !LockedTick(evs[l])
    decreases j
  {
    if l :| i < l < j && LockedTick(evs[l]) {
      k := FirstLocked(evs, i, l);
    } else {
      k := j;
    }
  }

  // ---- A task runs in its own address space, on its own kernel stack ----

  /** Whatever entry the scheduler holds for task `x` names the address space `pml4`. */
  ghost predicate SpaceIs(s: Machine, x: nat, pml4: nat) {
    && x < s.nextId
    && (IsCurrent(s, x) ==> s.sched.current.value.pml4 == pml4)
    && forall k :: 0 <= k < |s.sched.queue| && s.sched.queue[k].id == x ==> s.sched.queue[k].pml4 == pml4
  }

  lemma SpaceStays(s: Machine, e: Event, x: nat, pml4: nat)
    requires Inv(s) && Legal(s, e) && HasFrame(s, e) && SpaceIs(s, x, pml4)
    ensures SpaceIs(Step(s, e), x, pml4)
  {
    hide FramePresent, FrameAt, SaveFrame, QueuedOk, StackPresent, IdsOk, Pushed;
  }

  lemma {:induction false} SpaceOverRun(trace: seq<Machine>, evs: seq<Event>, x: nat, pml4: nat, i: nat, j: nat)
    requires Run(trace, evs) && Inv(trace[0]) && i <= j <= |evs| && SpaceIs(trace[i], x, pml4)
    ensures SpaceIs(trace[j], x, pml4)
  {
    hide Inv, Legal, HasFrame, Step, SpaceIs;
    if i < j {
      SpaceOverRun(trace, evs, x, pml4, i, j - 1);
      RunInv(trace, evs, j - 1);
      SpaceStays(trace[j - 1], evs[j - 1], x, pml4);
    }
  }

  lemma SpaceOfNew(s: Machine, e: Event)
    requires Inv(s) && Legal(s, e) && HasFrame(s, e) && e.Spawn?
    ensures SpaceIs(Step(s, e), s.nextId, e.pml4)
  {
    hide FramePresent, FrameAt, SaveFrame, StackPresent, IdsOk;
  }

  /** Whenever a task runs, CR3 holds the address space it was made with, and interrupts and system calls enter the
      kernel at the top of its own kernel stack. */
  lemma RunsInItsSpace(trace: seq<Machine>, evs: seq<Event>, i: nat, j: nat)
    requires Run(trace, evs) && Inv(trace[0]) && i < j <= |evs| && evs[i].Spawn?
    requires IsCurrent(trace[j], trace[i].nextId)
    ensures trace[j].cpu.cr3 == evs[i].pml4
    ensures trace[j].cpu.rsp0 == trace[j].cpu.cpuStack == 0xFFFF_FE00_0000_0000 + trace[i].nextId * 0xA000 + 0x9000
  {
    hide FramePresent, FrameAt, Legal, HasFrame, Step, QueuedOk, IdsOk, StackPresent;
    RunInv(trace, evs, i);
    SpaceOfNew(trace[i], evs[i]);
    SpaceOverRun(trace, evs, trace[i].nextId, evs[i].pml4, i + 1, j);
    RunInv(trace, evs, j);
  }

  // ---- Where the hardware saves a context ----

  /** A task that is switched out leaves its context in the 160 bytes below the top of its kernel stack when it was in
      user mode, and else below its own stack pointer, rounded down to 16. */
  lemma SavedWhere(s: Machine, x: nat)
    requires Inv(s) && Legal(s, Tick(true)) && IsCurrent(s, x) && !Ended(s, x) && s.sched.queue != []
    ensures HasFrame(s, Tick(true))
    ensures var q := Step(s, Tick(true)).sched.queue;
            && q != [] && q[|q| - 1].id == x
            && q[|q| - 1].stackPtr
               == (if s.cpu.ctx.cs % 4 != 0 then StackTop(x) else s.cpu.ctx.rsp - s.cpu.ctx.rsp % 16) - 160
  {
    hide FramePresent, FrameAt, SaveFrame, QueuedOk, StackPresent, IdsOk, StackTop;
    TickSwitches(s, true);
    RoundedDown(s.cpu.ctx.rsp);
  }

  lemma RoundedDown(a: nat)
    ensures Align16(a) == a - a % 16
  {}

  /** Word `k` of the pushed ones, counted from the top. */
  ghost predicate WordBelow(m: StackMem, top: nat, k: nat, v: nat) {
    8 * k <= top && top - 8 * k in m && m[top - 8 * k] == v
  }

  lemma PushedWord(m: StackMem, id: nat, ws: seq<nat>, n: nat, k: nat)
    requires StackPresent(m, id) && 0 < k <= n <= |ws| && n <= 20
    ensures WordBelow(Pushed(m, StackTop(id), ws, n), StackTop(id), k, ws[k - 1])
  {
    StackLayout(id);
    var a := StackTop(id) - 8 * k;
    assert a % 8 == 0 by {
      assert a == 8 * (StackTop(id) / 8 - k);
    }
    assert InStack(a, id);
  }

  /** A fault enters the kernel on the task's kernel stack, below the five words of the interrupt frame and the error
      code, and with GS as user code had it. */
  lemma FaultEnters(s: Machine, x: nat)
    requires Inv(s) && Legal(s, Fault) && IsCurrent(s, x)
    ensures var c, s', top := s.cpu.ctx, Step(s, Fault), StackTop(x);
            && s'.cpu.ctx.rsp == top - 48 && !FromUser(s'.cpu.ctx) && s'.cpu.gs == s.cpu.gs
            && WordBelow(s'.mem, top, 1, c.ss) && WordBelow(s'.mem, top, 2, c.rsp)
            && WordBelow(s'.mem, top, 3, c.rflags) && WordBelow(s'.mem, top, 4, c.cs)
            && WordBelow(s'.mem, top, 5, c.rip)
  {
    hide FramePresent, FrameAt, Inv, Pushed, WordBelow, StackTop, StackPresent;
    CurrentFacts(s);
    StackLayout(x);
    var ws := PushOrder(s.cpu.ctx);
    PushedWord(s.mem, x, ws, 5, 1);
    PushedWord(s.mem, x, ws, 5, 2);
    PushedWord(s.mem, x, ws, 5, 3);
    PushedWord(s.mem, x, ws, 5, 4);
    PushedWord(s.mem, x, ws, 5, 5);
    TopRoom(x);
  }

  lemma TopRoom(id: nat)
    ensures StackTop(id) >= 48
  {}

  // ---- Ticks ----

  ghost function TickEvents(evs: seq<Event>, n: nat): nat
    requires n <= |evs|
  {
    if n == 0 then 0 else TickEvents(evs, n - 1) + if evs[n - 1].Tick? then 1 else 0
  }

  /** The tick counter counts every timer and yield interrupt, whether or not it got the lock. */
  lemma {:induction false} TicksCounted(trace: seq<Machine>, evs: seq<Event>, n: nat)
    requires Run(trace, evs) && n <= |evs|
    ensures trace[n].ticks == trace[0].ticks + TickEvents(evs, n)
  {
    hide Legal, HasFrame, Step;
    if n > 0 {
      TicksCounted(trace, evs, n - 1);
      TickStep(trace[n - 1], evs[n - 1]);
    }
  }

  lemma TickStep(s: Machine, e: Event)
    requires Legal(s, e) && HasFrame(s, e)
    ensures Step(s, e).ticks == s.ticks + if e.Tick? then 1 else 0
  {
    hide FramePresent, FrameAt, SaveFrame, Pushed;
  }
}
