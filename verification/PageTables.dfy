/** Page tables as they lie in physical memory, and the walk the MMU makes through them. */
module PageTables {
  import opened Words

  const PAGE_SIZE: nat := 4096

  type Table = t: seq<Word> | |t| == 512 witness seq(512, _ => ZERO)

  /** Physical memory: the 512 words of every existing frame, by frame number. */
  type Memory = map<nat, Table>

  function EmptyTable(): (t: Table)
    ensures forall i :: 0 <= i < 512 ==> t[i] == ZERO
  {
    seq(512, _ => ZERO)
  }

  /** `PageTableEntry::is_unused`. */
  predicate Unused(w: Word) {
    w == ZERO
  }

  /** `PageTableEntry::frame` succeeds: the entry is present and names a table, not a huge page. */
  predicate NamesTable(w: Word) {
    Bit(w.lo, PRESENT) && !Bit(w.lo, HUGE)
  }

  /** The entry of the last-level table that the walk along `path` ends in, starting from entry
      `w` with `|path|` levels still below it. */
  function Descend(m: Memory, w: Word, path: seq<nat>): Option<Word>
    requires forall k :: 0 <= k < |path| ==> path[k] < 512
    decreases |path|
  {
    if Unused(w) then None
    else if |path| == 0 then Some(w)
    else if !NamesTable(w) || w.frame !in m then None
    else Descend(m, m[w.frame][path[0]], path[1..])
  }

  /** The walk from a table, along at least one index. */
  function WalkTable(m: Memory, table: nat, path: seq<nat>): Option<Word>
    requires |path| > 0 && forall k :: 0 <= k < |path| ==> path[k] < 512
  {
    if table !in m then None else Descend(m, m[table][path[0]], path[1..])
  }

  // ---- Virtual addresses ----

  const LOWER_HALF_END: nat := 0x8000_0000_0000
  const UPPER_HALF_START: nat := 0xFFFF_8000_0000_0000

  /** The four table indices of an address: PML4, PDPT, PD and PT. */
  function PathOf(va: nat): (p: seq<nat>)
    ensures |p| == 4 && forall k :: 0 <= k < 4 ==> p[k] < 512
  {
    [va / 0x80_0000_0000 % 512, va / 0x4000_0000 % 512, va / 0x20_0000 % 512, va / 0x1000 % 512]
  }

  /** Two addresses of one half lie on the same page exactly when all four indices agree. */
  lemma PathIdentifiesPage(a: nat, b: nat)
    requires a / 0x1_0000_0000_0000 == b / 0x1_0000_0000_0000
    ensures PathOf(a) == PathOf(b) <==> a / PAGE_SIZE == b / PAGE_SIZE
  {
    PathOfPage(a);
    PathOfPage(b);
    if PathOf(a) == PathOf(b) {
      var p, q := PathOf(a), PathOf(b);
      assert p[0] == q[0] && p[1] == q[1] && p[2] == q[2] && p[3] == q[3];
    }
  }

  lemma PathOfPage(a: nat)
    ensures var p := PathOf(a);
            a / PAGE_SIZE == (((a / 0x1_0000_0000_0000 * 512 + p[0]) * 512 + p[1]) * 512 + p[2]) * 512 + p[3]
    ensures PathOf(a) == [a / PAGE_SIZE / 512 / 512 / 512 % 512, a / PAGE_SIZE / 512 / 512 % 512,
                          a / PAGE_SIZE / 512 % 512, a / PAGE_SIZE % 512]
  {
    var n := a / 4096;
    assert a / 0x20_0000 == n / 512;
    assert a / 0x4000_0000 == n / 512 / 512;
    assert a / 0x80_0000_0000 == n / 512 / 512 / 512;
    assert a / 0x1_0000_0000_0000 == n / 512 / 512 / 512 / 512;
  }

  /** `translate_addr`: the entry that maps the page of `va` in the address space of `pml4`. */
  function Translate(m: Memory, pml4: nat, va: nat): Option<Word> {
    WalkTable(m, pml4, PathOf(va))
  }

  /** Entry `w`, and every entry below it on the walk along `path`, has the bit. */
  predicate AllowsFrom(m: Memory, w: Word, path: seq<nat>, bit: nat)
    requires forall k :: 0 <= k < |path| ==> path[k] < 512
    decreases |path|
  {
    Bit(w.lo, bit)
    && (path == [] || (NamesTable(w) && w.frame in m && AllowsFrom(m, m[w.frame][path[0]], path[1..], bit)))
  }

  /** The MMU grants an access only when every entry on the way to the page of `va` has the bit for it. */
  predicate Allows(m: Memory, pml4: nat, va: nat, bit: nat) {
    pml4 in m && AllowsFrom(m, m[pml4][PathOf(va)[0]], PathOf(va)[1..], bit)
  }

  /** Neither entry `w` nor any entry below it on the walk along `path` forbids execution. */
  predicate FetchesFrom(m: Memory, w: Word, path: seq<nat>)
    requires forall k :: 0 <= k < |path| ==> path[k] < 512
    decreases |path|
  {
    !Bit(w.hi, NO_EXECUTE_HI)
    && (path == [] || (NamesTable(w) && w.frame in m && FetchesFrom(m, m[w.frame][path[0]], path[1..])))
  }

  /** Code can be fetched only when no entry on the way to the page of `va` forbids it. */
  predicate Fetches(m: Memory, pml4: nat, va: nat) {
    pml4 in m && FetchesFrom(m, m[pml4][PathOf(va)[0]], PathOf(va)[1..])
  }

  /** What `translate_addr` gives: no frame, the frame of the page, or a walk that cannot be made: through a huge
      page at the top, or a table outside memory. */
  datatype Location = Absent | At(frame: nat) | Broken

  /** `translate_addr` along the indices `path`, huge pages of 2 MiB and 1 GiB included. */
  function Locate(m: Memory, table: nat, path: seq<nat>): Location
    requires 1 <= |path| <= 4 && forall k :: 0 <= k < |path| ==> path[k] < 512
    decreases |path|
  {
    if table !in m then Broken
    else
      var w := m[table][path[0]];
      if |path| == 1 then if Unused(w) then Absent else At(w.frame)
      else if !Bit(w.lo, PRESENT) then Absent
      else if Bit(w.lo, HUGE) then if |path| == 4 then Broken else At(HugeFrame(w.frame, path[1..]))
      else Locate(m, w.frame, path[1..])
  }

  /** The frame of a page inside a huge page that starts at or below frame `base`. */
  function HugeFrame(base: nat, rest: seq<nat>): nat
    requires 1 <= |rest| <= 2
  {
    if |rest| == 1 then base / 512 * 512 + rest[0] else base / 0x4_0000 * 0x4_0000 + rest[0] * 512 + rest[1]
  }

  /** Inside a huge page of 2 MiB or 1 GiB, pages lie in memory in the order of their addresses. */
  lemma HugeInOrder(base: nat, va: nat)
    ensures base % 512 == 0 ==> HugeFrame(base, PathOf(va)[3..]) == base + va / 4096 % 512
    ensures base % 0x4_0000 == 0 ==> HugeFrame(base, PathOf(va)[2..]) == base + va / 4096 % 0x4_0000
  {
    PathOfPage(va);
    var n := va / 4096;
    assert n % 0x4_0000 == n / 512 % 512 * 512 + n % 512 by {
      assert n == 512 * (n / 512) + n % 512 && n / 512 == 512 * (n / 512 / 512) + n / 512 % 512;
      assert n / 512 / 512 == n / 0x4_0000;
    }
    if base % 512 == 0 {
      assert base == 512 * (base / 512);
    }
    if base % 0x4_0000 == 0 {
      assert base == 0x4_0000 * (base / 0x4_0000);
    }
  }

  // ---- Shape of a source tree ----

  /** Every used entry above the last level is present, not huge, and names an existing frame. */
  ghost predicate WellFormed(m: Memory, w: Word, level: nat)
    decreases level
  {
    level == 0 || (NamesTable(w) && w.frame in m &&
                   forall i :: 0 <= i < 512 && !Unused(m[w.frame][i]) ==> WellFormed(m, m[w.frame][i], level - 1))
  }

  /** The frames that hold the tables below entry `w`. */
  ghost function Tables(m: Memory, w: Word, level: nat): set<nat>
    decreases level, 0
  {
    if level == 0 || Unused(w) || w.frame !in m then {}
    else {w.frame} + TablesFirst(m, m[w.frame], level - 1, 512)
  }

  /** The frames that hold the tables below the first `n` entries of `t`. */
  ghost function TablesFirst(m: Memory, t: Table, level: nat, n: nat): set<nat>
    requires n <= 512
    decreases level, n + 1
  {
    if n == 0 then {} else TablesFirst(m, t, level, n - 1) + Tables(m, t[n - 1], level)
  }

  lemma {:induction false} TablesFirstHas(m: Memory, t: Table, level: nat, n: nat, i: nat)
    requires i < n <= 512
    ensures Tables(m, t[i], level) <= TablesFirst(m, t, level, n)
  {
    if i < n - 1 {
      TablesFirstHas(m, t, level, n - 1, i);
    }
  }

  /** The number of tables below a used entry `w`, a table met on two paths counting twice. */
  ghost function Count(m: Memory, w: Word, level: nat): nat
    decreases level, 0
  {
    if level == 0 then 0
    else if w.frame !in m then 1
    else 1 + CountFirst(m, m[w.frame], level - 1, 512)
  }

  /** The number of tables below the first `n` entries of `t`. */
  ghost function CountFirst(m: Memory, t: Table, level: nat, n: nat): nat
    requires n <= 512
    decreases level, n + 1
  {
    if n == 0 then 0
    else CountFirst(m, t, level, n - 1) + if Unused(t[n - 1]) then 0 else Count(m, t[n - 1], level)
  }

  lemma {:induction false} CountFirstGrows(m: Memory, t: Table, level: nat, i: nat, n: nat)
    requires i <= n <= 512
    ensures CountFirst(m, t, level, i) <= CountFirst(m, t, level, n)
  {
    if i < n {
      CountFirstGrows(m, t, level, i, n - 1);
    }
  }

  /** The tables below entry `i` are counted among those of the first `n`. */
  lemma {:induction false} CountFirstHas(m: Memory, t: Table, level: nat, i: nat, n: nat)
    requires i < n <= 512
    ensures CountFirst(m, t, level, i) + (if Unused(t[i]) then 0 else Count(m, t[i], level))
            <= CountFirst(m, t, level, n)
  {
    hide Count, Unused;
    CountFirstGrows(m, t, level, i + 1, n);
  }

  // ---- Frames and writes ----

  ghost function Range(s: seq<nat>): set<nat> {
    set f | f in s
  }

  /** A frame allocator hands out distinct existing frames; `supply` lists them in order. */
  ghost predicate ValidSupply(m: Memory, supply: seq<nat>) {
    && (forall i :: 0 <= i < |supply| ==> supply[i] in m && supply[i] < TWO_40)
    && (forall i, j :: 0 <= i < j < |supply| ==> supply[i] != supply[j])
  }

  /** `e` differs from `d` only in frames of `area`. */
  ghost predicate SameOutside(d: Memory, e: Memory, area: set<nat>) {
    e.Keys == d.Keys && forall f :: f in d && f !in area ==> e[f] == d[f]
  }

  /** Some frames of the supply were taken and written; nothing else was. */
  ghost predicate Spent(m: Memory, supply: seq<nat>, e: Memory, supply': seq<nat>) {
    && ValidSupply(e, supply') && SameOutside(m, e, Range(supply))
    && forall f :: f in supply' ==> f in supply
  }
}
