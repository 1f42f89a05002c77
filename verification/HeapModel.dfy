/** The kernel heap as values: size classes over a first-fit free list
    (`kernel/src/memory/allocator`). */
module HeapModel {
  import opened Words

  const NODE_SIZE: nat := 16
  const NODE_ALIGN: nat := 8
  const ISIZE_MAX: nat := 0x7FFF_FFFF_FFFF_FFFF
  const BLOCK_SIZES: seq<nat> := [8, 16, 32, 64, 128, 256, 512, 1024, 2048]
  const CLASSES: nat := 9

  function Max(a: nat, b: nat): nat {
    if a >= b then a else b
  }

  // ---- Alignment ----

  predicate IsPow2(a: nat) {
    a == 1 || (a > 1 && a % 2 == 0 && IsPow2(a / 2))
  }

  /** `n & !(a - 1)` for a power of two `a`: the low bits of `n` below `a` cleared. */
  function ClearBelow(n: nat, a: nat): nat
    requires IsPow2(a)
  {
    if a == 1 then n else 2 * ClearBelow(n / 2, a / 2)
  }

  function RoundUp(n: nat, a: nat): (r: nat)
    requires a > 0
  {
    (n + a - 1) / a * a
  }

  lemma {:induction false} ClearBelowIsFloor(n: nat, a: nat)
    requires IsPow2(a)
    ensures ClearBelow(n, a) == n / a * a
    decreases a
  {
    if a > 1 {
      var b := a / 2;
      ClearBelowIsFloor(n / 2, b);
      HalvesDivide(n, b);
      assert ClearBelow(n, a) == 2 * (n / 2 / b * b);
      assert 2 * (n / 2 / b * b) == n / 2 / b * (2 * b) by { MulSwap(n / 2 / b, b); }
    }
  }

  lemma MulSwap(q: nat, b: nat)
    ensures 2 * (q * b) == q * (2 * b)
  {}

  lemma {:induction false} MulStep(x: nat, y: nat, b: nat)
    requires x < y
    ensures x * b + b <= y * b
  {
    assert (y - 1) * b + b == y * b;
    if x < y - 1 {
      MulStep(x, y - 1, b);
    }
  }

  lemma SumDivisible(x: nat, y: nat)
    requires x % NODE_ALIGN == 0 && y % NODE_ALIGN == 0
    ensures (x + y) % NODE_ALIGN == 0
  {
    assert x + y == 8 * (x / 8 + y / 8);
  }

  lemma QuotientUnique(n: nat, b: nat, q: nat, r: nat)
    requires b > 0 && r < b && n == q * b + r
    ensures n / b == q && n % b == r
  {
    var q', r' := n / b, n % b;
    assert n == q' * b + r';
    if q < q' {
      MulStep(q, q', b);
    } else if q' < q {
      MulStep(q', q, b);
    }
  }

  lemma HalvesDivide(n: nat, b: nat)
    requires b > 0
    ensures n / 2 / b == n / (2 * b)
  {
    var q, r := n / 2 / b, n / 2 % b;
    var m := q * b;
    assert n / 2 == m + r;
    MulSwap(q, b);
    assert n == 2 * m + (2 * r + n % 2);
    QuotientUnique(n, 2 * b, q, 2 * r + n % 2);
  }

  lemma RoundUpBounds(n: nat, a: nat)
    requires a > 0
    ensures n <= RoundUp(n, a) < n + a && RoundUp(n, a) % a == 0
  {
    var m := n + a - 1;
    assert m == m / a * a + m % a;
    QuotientUnique(m / a * a, a, m / a, 0);
  }

  /** `align_up`; `None` when `addr + align - 1` overflows, which panics. */
  function AlignUp(addr: nat, align: nat): (r: Option<nat>)
    requires IsPow2(align)
    ensures r.Some? <==> addr + align - 1 < TWO_64
    ensures r.Some? ==> addr <= r.value < addr + align && r.value % align == 0
  {
    if addr + align - 1 >= TWO_64 then None
    else
      ClearBelowIsFloor(addr + align - 1, align);
      RoundUpBounds(addr, align);
      Some(ClearBelow(addr + align - 1, align))
  }

  // ---- Layouts ----

  datatype Layout = Layout(size: nat, align: nat)

  /** What `core::alloc::Layout` guarantees. */
  predicate ValidLayout(l: Layout) {
    IsPow2(l.align) && l.size + l.align - 1 <= ISIZE_MAX
  }

  datatype SizeAlign = SizeAlign(size: nat, align: nat)

  /** `size_align`; `None` when adjusting the alignment overflows, which panics. */
  function Adjusted(l: Layout): (r: Option<SizeAlign>)
    requires ValidLayout(l)
  {
    var align := Max(l.align, NODE_ALIGN);
    if l.size + align - 1 > ISIZE_MAX then None
    else Some(SizeAlign(Max(RoundUp(l.size, align), NODE_SIZE), align))
  }

  lemma {:induction false} Pow2Divisible(a: nat, b: nat)
    requires IsPow2(a) && IsPow2(b) && a <= b
    ensures b % a == 0
    decreases b
  {
    if a > 1 {
      Pow2Divisible(a / 2, b / 2);
      var q := b / 2 / (a / 2);
      assert b / 2 == q * (a / 2);
      MulSwap(q, a / 2);
      QuotientUnique(b, a, q, 0);
    }
  }

  lemma DividesTransitive(n: nat, b: nat, a: nat)
    requires a > 0 && b > 0 && n % b == 0 && b % a == 0
    ensures n % a == 0
  {
    var q, p := n / b, b / a;
    assert n == q * b && b == p * a;
    assert n == q * (p * a) == (q * p) * a;
    QuotientUnique(n, a, q * p, 0);
  }

  lemma Pow2Classes()
    ensures forall c :: 0 <= c < CLASSES ==> IsPow2(BLOCK_SIZES[c])
    ensures IsPow2(NODE_ALIGN)
  {
    assert IsPow2(2) && IsPow2(4) && IsPow2(8);
    assert IsPow2(16) && IsPow2(32) && IsPow2(64);
    assert IsPow2(128) && IsPow2(256) && IsPow2(512);
    assert IsPow2(1024) && IsPow2(2048);
  }

  lemma AdjustedAligned(l: Layout)
    requires ValidLayout(l) && Adjusted(l).Some?
    ensures var s := Adjusted(l).value;
            && IsPow2(s.align) && s.align >= NODE_ALIGN && s.align % l.align == 0 && s.align % NODE_ALIGN == 0
            && s.size >= l.size && s.size >= NODE_SIZE && s.size % NODE_ALIGN == 0
  {
    Pow2Classes();
    var s := Adjusted(l).value;
    Pow2Divisible(l.align, s.align);
    Pow2Divisible(NODE_ALIGN, s.align);
    RoundUpBounds(l.size, s.align);
    DividesTransitive(RoundUp(l.size, s.align), s.align, NODE_ALIGN);
  }

  /** `list_index`: the smallest class that holds the layout. */
  function ListIndex(l: Layout): (c: Option<nat>)
    ensures c.Some? <==> Max(l.size, l.align) <= 2048
    ensures c.Some? ==> c.value < CLASSES && BLOCK_SIZES[c.value] >= Max(l.size, l.align)
    ensures c.Some? ==> forall i :: 0 <= i < c.value ==> BLOCK_SIZES[i] < Max(l.size, l.align)
  {
    FirstAtLeast(Max(l.size, l.align), 0)
  }

  function FirstAtLeast(n: nat, i: nat): (c: Option<nat>)
    requires i <= CLASSES && forall j :: 0 <= j < i ==> BLOCK_SIZES[j] < n
    ensures c.Some? <==> n <= 2048
    ensures c.Some? ==>
              c.value < CLASSES && BLOCK_SIZES[c.value] >= n
              && forall j :: 0 <= j < c.value ==> BLOCK_SIZES[j] < n
    decreases CLASSES - i
  {
    if i == CLASSES then assert BLOCK_SIZES[8] < n; None
    else if BLOCK_SIZES[i] >= n then Some(i)
    else FirstAtLeast(n, i + 1)
  }

  /** The bytes a block of class `c` takes: the fallback never hands out less than a list node. */
  function ClassFootprint(c: nat): nat
    requires c < CLASSES
  {
    Max(BLOCK_SIZES[c], NODE_SIZE)
  }

  /** The bytes a live block takes. */
  function Footprint(l: Layout): nat
    requires ValidLayout(l)
  {
    match ListIndex(l)
    case Some(c) => ClassFootprint(c)
    case None => if Adjusted(l).Some? then Adjusted(l).value.size else 0
  }

  // ---- The free list: first fit ----

  datatype Region = Region(start: nat, size: nat)

  datatype Fit = FitsAt(start: nat) | NoFit | Overflows

  /** `alloc_from_region`. */
  function AllocFromRegion(r: Region, size: nat, align: nat): (f: Fit)
    requires IsPow2(align)
    ensures f.FitsAt? ==>
              && r.start <= f.start && f.start % align == 0 && f.start + size <= r.start + r.size
              && (f.start + size == r.start + r.size || f.start + size + NODE_SIZE <= r.start + r.size)
  {
    match AlignUp(r.start, align)
    case None => Overflows
    case Some(start) =>
      var end := start + size;
      if end >= TWO_64 || end > r.start + r.size then NoFit
      else if 0 < r.start + r.size - end < NODE_SIZE then NoFit
      else FitsAt(start)
  }

  datatype Search = Found(index: nat, start: nat) | NotFound | Panics

  /** `find_region`: the first region of the list, from `i` on, that the block can be cut from. */
  function FindRegion(rs: seq<Region>, size: nat, align: nat, i: nat): (s: Search)
    requires IsPow2(align) && i <= |rs|
    ensures s.Found? ==>
              && i <= s.index < |rs| && AllocFromRegion(rs[s.index], size, align) == FitsAt(s.start)
              && forall j :: i <= j < s.index ==> AllocFromRegion(rs[j], size, align) == NoFit
    ensures s.NotFound? ==> forall j :: i <= j < |rs| ==> AllocFromRegion(rs[j], size, align) == NoFit
    ensures s.Panics? ==>
              exists k :: i <= k < |rs| && AllocFromRegion(rs[k], size, align) == Overflows
                && forall j :: i <= j < k ==> AllocFromRegion(rs[j], size, align) == NoFit
    decreases |rs| - i
  {
    if i == |rs| then NotFound
    else match AllocFromRegion(rs[i], size, align)
      case FitsAt(start) => Found(i, start)
      case Overflows => Panics
      case NoFit => FindRegion(rs, size, align, i + 1)
  }
}
