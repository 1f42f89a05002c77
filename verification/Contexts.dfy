/** The saved context of a task: twenty words on its kernel stack. */
module Contexts {

  /** Kernel stacks as 64-bit words by virtual address. */
  type StackMem = map<nat, nat>

  const FRAME_SIZE: nat := 160
  const REGISTERS: nat := 15

  // Positions in `regs`, in the order the entry code pushes them:
  // rax rbx rcx rdx rbp rsi rdi r8 r9 r10 r11 r12 r13 r14 r15.
  const RAX: nat := 0
  const RCX: nat := 2
  const RDX: nat := 3
  const RDI: nat := 6
  const R11: nat := 10

  datatype RawContext = Context(regs: seq<nat>, rip: nat, cs: nat, rflags: nat, rsp: nat, ss: nat)

  type Context = c: RawContext | |c.regs| == 15 witness Context(seq(15, _ => 0), 0, 0, 0, 0, 0)

  /** The test the entry and exit code makes on the saved code segment. */
  predicate FromUser(c: Context) {
    c.cs % 4 != 0
  }

  /** The words of a frame in the order they are pushed, from high to low addresses. */
  function PushOrder(c: Context): (ws: seq<nat>)
    ensures |ws| == 20
  {
    [c.ss, c.rsp, c.rflags, c.cs, c.rip] + c.regs
  }

  ghost predicate FramePresent(m: StackMem, p: nat) {
    forall k :: 0 <= k < 20 ==> p + 8 * k in m
  }

  /** The context a restore from stack pointer `p` loads. */
  ghost function FrameAt(m: StackMem, p: nat): (c: Context)
    requires FramePresent(m, p)
  {
    Context(seq(15, k requires 0 <= k < 15 => m[p + 8 * (14 - k)]),
            m[p + 8 * 15], m[p + 8 * 16], m[p + 8 * 17], m[p + 8 * 18], m[p + 8 * 19])
  }

  /** Memory after the first `n` words of `ws` were pushed below `top`. */
  ghost function Pushed(m: StackMem, top: nat, ws: seq<nat>, n: nat): (r: StackMem)
    requires n <= |ws|
    ensures r.Keys == m.Keys
  {
    map a | a in m :: if a < top <= a + 8 * n && (top - a) % 8 == 0 then ws[(top - a) / 8 - 1] else m[a]
  }

  /** One more push. */
  lemma PushedNext(m: StackMem, top: nat, ws: seq<nat>, n: nat)
    requires n < |ws| && 8 * (n + 1) <= top && top - 8 * (n + 1) in m
    ensures Pushed(m, top, ws, n)[top - 8 * (n + 1) := ws[n]] == Pushed(m, top, ws, n + 1)
  {
    var slot := top - 8 * (n + 1);
    var e, f := Pushed(m, top, ws, n)[slot := ws[n]], Pushed(m, top, ws, n + 1);
    assert e.Keys == f.Keys;
    forall a | a in m ensures e[a] == f[a] {
      if a != slot && a < top <= a + 8 * (n + 1) && (top - a) % 8 == 0 {
        assert top - a != 8 * (n + 1);
      }
    }
  }

  /** Saving a context below `top`. */
  ghost function SaveFrame(m: StackMem, top: nat, c: Context): (r: StackMem)
    ensures r.Keys == m.Keys
  {
    Pushed(m, top, PushOrder(c), 20)
  }

  lemma SavedWord(m: StackMem, top: nat, c: Context, k: nat)
    requires top >= FRAME_SIZE && k < 20 && top - FRAME_SIZE + 8 * k in m
    ensures var a := top - FRAME_SIZE + 8 * k;
            a in SaveFrame(m, top, c)
            && SaveFrame(m, top, c)[a] == PushOrder(c)[19 - k]
  {
    var a := top - FRAME_SIZE + 8 * k;
    assert top - a == 8 * (20 - k);
  }

  /** What is saved is what is restored. */
  lemma SaveRestore(m: StackMem, top: nat, c: Context)
    requires top >= FRAME_SIZE && FramePresent(m, top - FRAME_SIZE)
    ensures FramePresent(SaveFrame(m, top, c), top - FRAME_SIZE)
    ensures FrameAt(SaveFrame(m, top, c), top - FRAME_SIZE) == c
  {
    hide SaveFrame, PushOrder;
    var p := top - FRAME_SIZE;
    var e := SaveFrame(m, top, c);
    forall k | 0 <= k < 20 ensures p + 8 * k in e && e[p + 8 * k] == PushOrder(c)[19 - k] {
      SavedWord(m, top, c, k);
    }
    SavedContext(e, p, c);
  }

  lemma SavedContext(e: StackMem, p: nat, c: Context)
    requires forall k :: 0 <= k < 20 ==> p + 8 * k in e && e[p + 8 * k] == PushOrder(c)[19 - k]
    ensures FrameAt(e, p) == c
  {
    var d := FrameAt(e, p);
    forall k | 0 <= k < 15 ensures d.regs[k] == c.regs[k] {
      assert e[p + 8 * (14 - k)] == PushOrder(c)[19 - (14 - k)];
    }
    assert d.regs == c.regs;
    assert e[p + 8 * 15] == PushOrder(c)[4] && e[p + 8 * 16] == PushOrder(c)[3] && e[p + 8 * 17] == PushOrder(c)[2];
    assert e[p + 8 * 18] == PushOrder(c)[1] && e[p + 8 * 19] == PushOrder(c)[0];
  }

  /** A frame is unaffected by writes outside it. */
  lemma FrameKept(m: StackMem, e: StackMem, p: nat)
    requires FramePresent(m, p) && forall a :: a in m && p <= a < p + FRAME_SIZE ==> a in e && e[a] == m[a]
    ensures FramePresent(e, p) && FrameAt(e, p) == FrameAt(m, p)
  {
    forall k | 0 <= k < 20 ensures p + 8 * k in e && e[p + 8 * k] == m[p + 8 * k] {
      assert p + 8 * k in m;
    }
  }
}
