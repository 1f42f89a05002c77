/** What loading any image, with segments in either half, does to the kernel's half of a process's PML4
    (`kernel/src/process.rs`, `kernel/src/memory/paging.rs`). */
module KernelHalf {
  import opened Words
  import opened PageTables
  import opened CloneTables
  import opened AddressSpaces
  import opened UserMemory
  import opened Bytes
  import opened KernelElf
  import opened LoadModel
  import ProcessLoading

  // ---- Tables by level ----

  /** The level of every table, from 4 for the PML4 down to 1. */
  type Levels = map<nat, nat>

  /** A used entry of a table above the last level: it is present and, unless it is a huge page, names a table
      of the level below. */
  ghost predicate NextLevel(lv: Levels, level: nat, w: Word) {
    Bit(w.lo, PRESENT) && (!Bit(w.lo, HUGE) ==> w.frame in lv && lv[w.frame] == level - 1)
  }

  /** No frame is a table of two levels. Nothing is said of pages, and tables may be shared. */
  ghost predicate Leveled(m: Memory, lv: Levels, pml4: nat) {
    && pml4 in lv && lv[pml4] == 4
    && (forall f :: f in lv ==> f in m && 1 <= lv[f] <= 4 && (lv[f] == 4 ==> f == pml4))
    && (forall f, i :: f in lv && lv[f] >= 2 && 0 <= i < 512 && !Unused(m[f][i]) ==> NextLevel(lv, lv[f], m[f][i]))
  }

  ghost predicate At4(path: seq<nat>) {
    |path| == 4 && ValidPath(path)
  }

  /** A walk reads only tables of the levels it passes. */
  lemma {:induction false} LocateKept(m: Memory, e: Memory, lv: Levels, pml4: nat, g: nat, path: seq<nat>)
    requires Leveled(m, lv, pml4) && g in lv && lv[g] == |path| && ValidPath(path)
    requires forall f :: f in lv && lv[f] <= |path| ==> f in m && f in e && e[f] == m[f]
    ensures Locate(e, g, path) == Locate(m, g, path)
    decreases |path|
  {
    var w := m[g][path[0]];
    if |path| > 1 && Bit(w.lo, PRESENT) && !Bit(w.lo, HUGE) {
      BitOfZero(PRESENT);
      assert NextLevel(lv, lv[g], w);
      LocateKept(m, e, lv, pml4, w.frame, path[1..]);
    }
  }

  /** `b` is where a page is after a step, `a` where it was before: a page that was mapped is where it was. */
  ghost predicate Moved(a: Location, b: Location, frames: set<nat>) {
    b == a || (a == Absent && b.At? && b.frame in frames)
  }

  /** As far as the tables go, `e` is `m` but for entry `i` of `table`. */
  ghost predicate EntryOnly(m: Memory, e: Memory, lv: Levels, table: nat, i: nat) {
    && (forall f :: f in lv ==> f in m && f in e)
    && (forall f, j :: f in lv && 0 <= j < 512 && (f != table || j != i) ==> e[f][j] == m[f][j])
  }

  /** Through entry `i` of `table`, pages are where they were or, having been nowhere, in one of `frames`. */
  ghost predicate EntryMoved(m: Memory, e: Memory, table: nat, i: nat, level: nat, frames: set<nat>)
    requires 1 <= level <= 4
  {
    forall p :: |p| == level && ValidPath(p) && p[0] == i ==> Moved(Locate(m, table, p), Locate(e, table, p), frames)
  }

  lemma EntrySame(m: Memory, e: Memory, lv: Levels, table: nat, i: nat, f: nat, j: nat)
    requires EntryOnly(m, e, lv, table, i) && f in lv && j < 512 && (f != table || j != i)
    ensures f in m && f in e && e[f][j] == m[f][j]
  {}

  /** When one entry of one table is written, a walk changes only through that entry. */
  lemma {:induction false} LocateMoved(m: Memory, e: Memory, lv: Levels, pml4: nat, table: nat, i: nat, g: nat,
                                       path: seq<nat>, frames: set<nat>)
    requires Leveled(m, lv, pml4) && g in lv && lv[g] == |path| && ValidPath(path) && table in lv
    requires EntryOnly(m, e, lv, table, i) && EntryMoved(m, e, table, i, lv[table], frames)
    ensures Moved(Locate(m, g, path), Locate(e, g, path), frames)
    decreases |path|
  {
    if g != table || path[0] != i {
      EntrySame(m, e, lv, table, i, g, path[0]);
      hide EntryOnly;
      var w := m[g][path[0]];
      if |path| > 1 && Bit(w.lo, PRESENT) && !Bit(w.lo, HUGE) {
        BitOfZero(PRESENT);
        assert NextLevel(lv, lv[g], w);
        LocateMoved(m, e, lv, pml4, table, i, w.frame, path[1..], frames);
      }
    }
  }

  // ---- One step ----

  /** The PML4 before and after: PRESENT and USER are never taken from an entry, and when only the lower half was
      worked on, the upper half is as it was. */
  ghost predicate RootKept(t: Table, u: Table, lower: bool) {
    forall i :: 0 <= i < 512 ==>
      && (Bit(t[i].lo, PRESENT) ==> Bit(u[i].lo, PRESENT)) && (Bit(t[i].lo, USER) ==> Bit(u[i].lo, USER))
      && (lower && i >= 256 ==> u[i] == t[i])
  }

  ghost predicate LevelsGrown(lv: Levels, supply: seq<nat>, lv': Levels, supply': seq<nat>) {
    && (forall f :: f in lv ==> f in lv' && lv'[f] == lv[f])
    && (forall f :: f in lv' ==> f in lv || f in supply)
    && (forall f :: f in supply' ==> f in supply && f !in lv')
  }

  /** A page may have become mapped, to a frame taken for it; otherwise it is where it was. */
  ghost predicate Placed(a: Location, b: Location, supply: seq<nat>, lv': Levels, supply': seq<nat>) {
    b == a || (a == Absent && b.At? && b.frame in supply && b.frame !in supply' && b.frame !in lv')
  }

  ghost predicate AllPlaced(m: Memory, e: Memory, pml4: nat, supply: seq<nat>, lv': Levels, supply': seq<nat>) {
    forall p :: At4(p) ==> Placed(Locate(m, pml4, p), Locate(e, pml4, p), supply, lv', supply')
  }

  /** What every step of loading keeps. */
  ghost predicate Advanced(m: Memory, supply: seq<nat>, lv: Levels, e: Memory, supply': seq<nat>, lv': Levels,
                           pml4: nat, lower: bool)
  {
    && Leveled(e, lv', pml4) && LevelsGrown(lv, supply, lv', supply')
    && AllPlaced(m, e, pml4, supply, lv', supply')
    && pml4 in m && pml4 in e && RootKept(m[pml4], e[pml4], lower)
  }

  lemma AdvancedTwice(m: Memory, supply: seq<nat>, lv: Levels, e: Memory, supply': seq<nat>, lv': Levels,
                      g: Memory, supply'': seq<nat>, lv'': Levels, pml4: nat, lower: bool, lower': bool)
    requires Advanced(m, supply, lv, e, supply', lv', pml4, lower)
    requires Advanced(e, supply', lv', g, supply'', lv'', pml4, lower')
    ensures Advanced(m, supply, lv, g, supply'', lv'', pml4, lower && lower')
  {
    hide Leveled;
    assert AllPlaced(m, g, pml4, supply, lv'', supply'') by {
      hide RootKept;
      forall p | At4(p) ensures Placed(Locate(m, pml4, p), Locate(g, pml4, p), supply, lv'', supply'') {
        assert Placed(Locate(m, pml4, p), Locate(e, pml4, p), supply, lv', supply');
        assert Placed(Locate(e, pml4, p), Locate(g, pml4, p), supply', lv'', supply'');
      }
    }
  }

  /** The tables and the frames to come have no frame in common. */
  ghost predicate Ready(m: Memory, supply: seq<nat>, lv: Levels, pml4: nat) {
    Leveled(m, lv, pml4) && Sound(m, supply, pml4) && forall f :: f in supply ==> f !in lv
  }

  lemma AdvancedRefl(m: Memory, supply: seq<nat>, lv: Levels, pml4: nat, lower: bool)
    requires Ready(m, supply, lv, pml4)
    ensures Advanced(m, supply, lv, m, supply, lv, pml4, lower)
  {
    hide Leveled;
  }

  /** A new empty table below an unused entry. */
  lemma LinkAdvanced(m: Memory, supply: seq<nat>, lv: Levels, pml4: nat, table: nat, i: nat, w: Word)
    requires Ready(m, supply, lv, pml4) && supply != [] && table in lv && lv[table] >= 2 && i < 512
    requires table in m && Unused(m[table][i]) && w.frame == supply[0] && NamesTable(w)
    ensures var e, lv' := WriteEntry(m, table, i, w)[w.frame := EmptyTable()], lv[w.frame := lv[table] - 1];
            Advanced(m, supply, lv, e, supply[1..], lv', pml4, table != pml4 || i < 256)
  {
    var e, lv' := WriteEntry(m, table, i, w)[w.frame := EmptyTable()], lv[w.frame := lv[table] - 1];
    BitOfZero(PRESENT);
    BitOfZero(USER);
    FirstInSupply(m, supply);
    assert Leveled(e, lv', pml4) by {
      LinkLeveled(m, supply, lv, pml4, table, i, w);
    }
    hide Leveled;
    assert AllPlaced(m, e, pml4, supply, lv', supply[1..]) by {
      LinkPlaced(m, supply, lv, pml4, table, i, w);
    }
  }

  lemma LinkLeveled(m: Memory, supply: seq<nat>, lv: Levels, pml4: nat, table: nat, i: nat, w: Word)
    requires Ready(m, supply, lv, pml4) && supply != [] && table in lv && lv[table] >= 2 && i < 512
    requires table in m && w.frame == supply[0] && NamesTable(w)
    ensures Leveled(WriteEntry(m, table, i, w)[w.frame := EmptyTable()], lv[w.frame := lv[table] - 1], pml4)
  {
    FirstInSupply(m, supply);
  }

  lemma EntryPlaced(m: Memory, supply: seq<nat>, lv: Levels, e: Memory, supply': seq<nat>, lv': Levels, pml4: nat,
                    table: nat, i: nat, frames: set<nat>)
    requires Leveled(m, lv, pml4) && table in lv && EntryOnly(m, e, lv, table, i)
    requires EntryMoved(m, e, table, i, lv[table], frames)
    requires forall f :: f in frames ==> f in supply && f !in supply' && f !in lv'
    ensures AllPlaced(m, e, pml4, supply, lv', supply')
  {
    hide EntryOnly, EntryMoved;
    forall p | At4(p) ensures Placed(Locate(m, pml4, p), Locate(e, pml4, p), supply, lv', supply') {
      LocateMoved(m, e, lv, pml4, table, i, pml4, p, frames);
    }
  }

  lemma LinkPlaced(m: Memory, supply: seq<nat>, lv: Levels, pml4: nat, table: nat, i: nat, w: Word)
    requires Ready(m, supply, lv, pml4) && supply != [] && table in lv && lv[table] >= 2 && i < 512
    requires table in m && Unused(m[table][i]) && w.frame == supply[0] && NamesTable(w)
    ensures AllPlaced(m, WriteEntry(m, table, i, w)[w.frame := EmptyTable()], pml4, supply,
                      lv[w.frame := lv[table] - 1], supply[1..])
  {
    var e := WriteEntry(m, table, i, w)[w.frame := EmptyTable()];
    BitOfZero(PRESENT);
    FirstInSupply(m, supply);
    assert EntryMoved(m, e, table, i, lv[table], {}) by {
      forall p | |p| == lv[table] && ValidPath(p) && p[0] == i
        ensures Moved(Locate(m, table, p), Locate(e, table, p), {})
      {
        assert Locate(e, w.frame, p[1..]) == Absent;
      }
    }
    EntryPlaced(m, supply, lv, e, supply[1..], lv[w.frame := lv[table] - 1], pml4, table, i, {});
  }

  /** New access flags for an entry that names a table, or the USER flag for an entry of the PML4. */
  lemma FlagsAdvanced(m: Memory, supply: seq<nat>, lv: Levels, pml4: nat, table: nat, i: nat, w: Word)
    requires Ready(m, supply, lv, pml4) && table in lv && lv[table] >= 2 && i < 512 && table in m
    requires !Unused(m[table][i]) && w.frame == m[table][i].frame && Bit(w.lo, PRESENT)
    requires (Bit(w.lo, HUGE) <==> Bit(m[table][i].lo, HUGE)) && (Bit(m[table][i].lo, USER) ==> Bit(w.lo, USER))
    ensures Advanced(m, supply, lv, WriteEntry(m, table, i, w), supply, lv, pml4, table != pml4 || i < 256)
  {
    var e := WriteEntry(m, table, i, w);
    assert NextLevel(lv, lv[table], m[table][i]);
    assert Leveled(e, lv, pml4);
    assert AllPlaced(m, e, pml4, supply, lv, supply) by {
      assert EntryMoved(m, e, table, i, lv[table], {}) by {
        forall p | |p| == lv[table] && ValidPath(p) && p[0] == i
          ensures Moved(Locate(m, table, p), Locate(e, table, p), {})
        {
          if !Bit(w.lo, HUGE) {
            LocateKept(m, e, lv, pml4, w.frame, p[1..]);
          }
        }
      }
      EntryPlaced(m, supply, lv, e, supply, lv, pml4, table, i, {});
    }
  }

  /** The entry of a page in a last-level table. */
  lemma LeafAdvanced(m: Memory, supply: seq<nat>, lv: Levels, pml4: nat, table: nat, i: nat, w: Word, all: seq<nat>)
    requires Ready(m, supply, lv, pml4) && table in lv && lv[table] == 1 && i < 512 && table in m
    requires Unused(m[table][i]) && w.frame !in lv && w.frame !in supply && w.frame in all
    requires forall f :: f in supply ==> f in all
    ensures Advanced(m, all, lv, WriteEntry(m, table, i, w), supply, lv, pml4, true)
  {
    var e := WriteEntry(m, table, i, w);
    assert Leveled(e, lv, pml4);
    assert AllPlaced(m, e, pml4, all, lv, supply) by {
      assert EntryMoved(m, e, table, i, 1, {w.frame});
      EntryPlaced(m, all, lv, e, supply, lv, pml4, table, i, {w.frame});
    }
  }

  // ---- The mapping code ----

  lemma NextTableAdvanced(m: Memory, supply: seq<nat>, lv: Levels, pml4: nat, table: nat, i: nat, flags: nat,
                          s: NextStep)
    returns (lv': Levels)
    requires Ready(m, supply, lv, pml4) && table in lv && lv[table] >= 2 && table in m && i < 512
    requires flags < TWO_12 && Bit(flags, PRESENT) && s == NextTable(m, supply, table, i, flags) && s.next.Table?
    ensures Advanced(m, supply, lv, s.mem, s.supply, lv', pml4, table != pml4 || i < 256)
    ensures s.next.frame in lv' && lv'[s.next.frame] == lv[table] - 1
    ensures table in s.mem && Bit(s.mem[table][i].lo, PRESENT)
  {
    hide Leveled, ValidSupply, Advanced;
    var entry := m[table][i];
    if Unused(entry) {
      FirstInSupply(m, supply);
      var w := Word(ParentFlags(flags), supply[0], 0);
      LinkAdvanced(m, supply, lv, pml4, table, i, w);
      lv' := lv[supply[0] := lv[table] - 1];
    } else {
      lv' := lv;
      UsedLevel(m, lv, pml4, table, i);
      if HasLow(entry.lo, flags) {
        AdvancedRefl(m, supply, lv, pml4, table != pml4 || i < 256);
      } else {
        FlagsAdvanced(m, supply, lv, pml4, table, i, Word(OrLow(entry.lo, flags), entry.frame, entry.hi));
      }
    }
  }

  lemma UsedLevel(m: Memory, lv: Levels, pml4: nat, table: nat, i: nat)
    requires Leveled(m, lv, pml4) && table in lv && lv[table] >= 2 && table in m && i < 512 && !Unused(m[table][i])
    ensures NextLevel(lv, lv[table], m[table][i])
  {}

  lemma AdvancedReady(m: Memory, supply: seq<nat>, lv: Levels, e: Memory, supply': seq<nat>, lv': Levels, pml4: nat,
                      lower: bool)
    requires Ready(m, supply, lv, pml4) && Advanced(m, supply, lv, e, supply', lv', pml4, lower)
    requires ValidSupply(e, supply')
    ensures Ready(e, supply', lv', pml4) && LevelsGrown(lv, supply, lv', supply')
    ensures forall f :: f in lv' ==> f in e
  {
    hide ValidSupply, AllPlaced;
  }

  lemma ReachAdvanced(m: Memory, supply: seq<nat>, lv: Levels, pml4: nat, path: seq<nat>, flags: nat, s: NextStep)
    returns (lv': Levels)
    requires Ready(m, supply, lv, pml4) && At4(path) && flags < TWO_12 && Bit(flags, PRESENT)
    requires s == ReachTable(m, supply, pml4, path, flags) && s.next.Table?
    ensures Advanced(m, supply, lv, s.mem, s.supply, lv', pml4, path[0] < 256)
    ensures s.next.frame in lv' && lv'[s.next.frame] == 1 && Bit(s.mem[pml4][path[0]].lo, PRESENT)
  {
    hide ValidSupply, NextTable, AllPlaced;
    var lower := path[0] < 256;
    var a := NextTable(m, supply, pml4, path[0], flags);
    var l1 := NextTableAdvanced(m, supply, lv, pml4, pml4, path[0], flags, a);
    AdvancedReady(m, supply, lv, a.mem, a.supply, l1, pml4, lower);
    var b := NextTable(a.mem, a.supply, a.next.frame, path[1], flags);
    var l2 := NextTableAdvanced(a.mem, a.supply, l1, pml4, a.next.frame, path[1], flags, b);
    AdvancedReady(a.mem, a.supply, l1, b.mem, b.supply, l2, pml4, true);
    AdvancedTwice(m, supply, lv, a.mem, a.supply, l1, b.mem, b.supply, l2, pml4, lower, true);
    lv' := NextTableAdvanced(b.mem, b.supply, l2, pml4, b.next.frame, path[2], flags, s);
    AdvancedTwice(m, supply, lv, b.mem, b.supply, l2, s.mem, s.supply, lv', pml4, lower, true);
  }

  /** A frame taken before a step and not used in it. */
  lemma AdvancedBeside(m: Memory, supply: seq<nat>, lv: Levels, e: Memory, supply': seq<nat>, lv': Levels, pml4: nat,
                       lower: bool, frame: nat)
    requires Advanced(m, supply, lv, e, supply', lv', pml4, lower) && frame !in supply && frame !in lv
    ensures Advanced(m, [frame] + supply, lv, e, [frame] + supply', lv', pml4, lower) && frame !in lv'
  {
    hide Leveled, RootKept;
  }

  lemma MapAdvanced(m: Memory, supply: seq<nat>, lv: Levels, pml4: nat, path: seq<nat>, frame: nat, f: Flags,
                    s: MapStep)
    returns (lv': Levels)
    requires Ready(m, supply, lv, pml4) && At4(path) && frame < TWO_40 && frame !in supply && frame !in lv
    requires s == MapPath(m, supply, pml4, path, frame, f.lo, f.hi) && s.result == Mapped
    ensures Advanced(m, [frame] + supply, lv, s.mem, s.supply, lv', pml4, path[0] < 256)
    ensures Bit(s.mem[pml4][path[0]].lo, PRESENT)
  {
    hide ValidSupply, ReachTable, AllPlaced, Leveled;
    var c := ReachTable(m, supply, pml4, path, f.lo);
    var t := c.next.frame;
    lv' := ReachAdvanced(m, supply, lv, pml4, path, f.lo, c);
    AdvancedReady(m, supply, lv, c.mem, c.supply, lv', pml4, path[0] < 256);
    AdvancedBeside(m, supply, lv, c.mem, c.supply, lv', pml4, path[0] < 256, frame);
    var w := Word(f.lo, frame, f.hi);
    LeafAdvanced(c.mem, c.supply, lv', pml4, t, path[3], w, [frame] + c.supply);
    AdvancedTwice(m, [frame] + supply, lv, c.mem, [frame] + c.supply, lv', s.mem, s.supply, lv', pml4,
                  path[0] < 256, true);
  }

  // ---- Regions ----

  lemma PageAdvanced(m: Memory, supply: seq<nat>, lv: Levels, pml4: nat, page: nat, f: Flags, r: Mapping)
    returns (lv': Levels)
    requires Ready(m, supply, lv, pml4) && r == PageIn(m, supply, pml4, page, f) && r.ok
    ensures Advanced(m, supply, lv, r.mem, r.supply, lv', pml4, PathOf(page * PAGE_SIZE)[0] < 256)
    ensures Bit(r.mem[pml4][PathOf(page * PAGE_SIZE)[0]].lo, PRESENT)
  {
    hide Leveled, Advanced, PathOf, MapPath;
    var path := PathOf(page * PAGE_SIZE);
    var at := Locate(m, pml4, path);
    if at.At? {
      lv' := lv;
      AdvancedRefl(m, supply, lv, pml4, path[0] < 256);
    } else {
      FirstInSupply(m, supply);
      assert supply == [supply[0]] + supply[1..];
      var s := MapPath(m, supply[1..], pml4, path, supply[0], f.lo, f.hi);
      lv' := MapAdvanced(m, supply[1..], lv, pml4, path, supply[0], f, s);
    }
  }

  lemma LowerPage(page: nat)
    requires page <= LAST_LOWER_PAGE
    ensures PathOf(page * PAGE_SIZE)[0] < 256
  {
    LowerPath(page * PAGE_SIZE);
  }

  lemma {:induction false} PagesAdvanced(m: Memory, supply: seq<nat>, lv: Levels, pml4: nat, page: nat, last: nat,
                                         f: Flags, r: Mapping)
    returns (lv': Levels)
    requires Ready(m, supply, lv, pml4) && r == PagesIn(m, supply, pml4, page, last, f) && r.ok
    ensures Advanced(m, supply, lv, r.mem, r.supply, lv', pml4, last <= LAST_LOWER_PAGE)
    ensures page <= last ==> Bit(r.mem[pml4][PathOf(page * PAGE_SIZE)[0]].lo, PRESENT)
    ensures page <= LAST_LOWER_PAGE ==> page > last || last < LAST_LOWER_PAGE
    decreases last + 1 - page
  {
    hide Leveled, PathOf, PageIn, AllPlaced;
    var lower := last <= LAST_LOWER_PAGE;
    if page > last {
      lv' := lv;
      AdvancedRefl(m, supply, lv, pml4, lower);
    } else {
      var a := PageIn(m, supply, pml4, page, f);
      var l1 := PageAdvanced(m, supply, lv, pml4, page, f, a);
      if lower {
        LowerPage(page);
      }
      AdvancedReady(m, supply, lv, a.mem, a.supply, l1, pml4, PathOf(page * PAGE_SIZE)[0] < 256);
      lv' := PagesAdvanced(a.mem, a.supply, l1, pml4, page + 1, last, f, r);
      AdvancedTwice(m, supply, lv, a.mem, a.supply, l1, r.mem, r.supply, lv', pml4,
                    PathOf(page * PAGE_SIZE)[0] < 256, lower);
    }
  }

  lemma SamePagePath(va: nat)
    ensures PathOf(va / PAGE_SIZE * PAGE_SIZE) == PathOf(va)
  {
    PathOfPage(va);
    PathOfPage(va / PAGE_SIZE * PAGE_SIZE);
    assert va / PAGE_SIZE * PAGE_SIZE / PAGE_SIZE == va / PAGE_SIZE;
  }

  /** A region ends with USER in the PML4 entry of its first page; one in the lower half leaves the upper half of the
      PML4 alone. */
  lemma RegionAdvanced(m: Memory, supply: seq<nat>, lv: Levels, pml4: nat, start: nat, size: nat, f: Flags, r: Mapping)
    returns (lv': Levels)
    requires Ready(m, supply, lv, pml4) && size > 0 && r == RegionIn(m, supply, pml4, start, size, f) && r.ok
    ensures Advanced(m, supply, lv, r.mem, r.supply, lv', pml4, start < LOWER_HALF_END)
    ensures Bit(r.mem[pml4][PathOf(start)[0]].lo, USER) && Canonical(start) && Canonical(start + size)
  {
    hide Leveled, PathOf, PagesIn, AllPlaced;
    var first, last := start / PAGE_SIZE, LastPage(start, size);
    var a := PagesIn(m, supply, pml4, first, last, f);
    SamePagePath(start);
    var l1 := PagesAdvanced(m, supply, lv, pml4, first, last, f, a);
    var i := PathOf(start)[0];
    var lower := last <= LAST_LOWER_PAGE;
    AdvancedReady(m, supply, lv, a.mem, a.supply, l1, pml4, lower);
    BitOfZero(PRESENT);
    lv' := l1;
    RootLevel(a.mem, l1, pml4);
    FlagsAdvanced(a.mem, a.supply, l1, pml4, pml4, i, UserEntry(a.mem[pml4][i]));
    AdvancedTwice(m, supply, lv, a.mem, a.supply, l1, r.mem, r.supply, l1, pml4, lower, i < 256);
    if start < LOWER_HALF_END {
      LowerPath(start);
      assert first <= LAST_LOWER_PAGE;
    } else {
      AdvancedUpper(m, supply, lv, r.mem, r.supply, l1, pml4, lower && i < 256);
    }
  }

  lemma RootLevel(m: Memory, lv: Levels, pml4: nat)
    requires Leveled(m, lv, pml4)
    ensures pml4 in lv && lv[pml4] == 4 && pml4 in m
  {}

  lemma AdvancedUpper(m: Memory, supply: seq<nat>, lv: Levels, e: Memory, supply': seq<nat>, lv': Levels, pml4: nat,
                      lower: bool)
    requires Advanced(m, supply, lv, e, supply', lv', pml4, lower)
    ensures Advanced(m, supply, lv, e, supply', lv', pml4, false)
  {
    hide Leveled, AllPlaced;
  }

  // ---- Stores ----

  /** A page that is mapped is neither in a table nor in a frame still to be handed out. */
  ghost predicate Free(at: Location, supply: seq<nat>, lv: Levels) {
    at.At? ==> at.frame !in supply && at.frame !in lv
  }

  lemma PageWritten(m: Memory, supply: seq<nat>, lv: Levels, pml4: nat, f: nat, t: Table)
    requires Ready(m, supply, lv, pml4) && f in m && f !in lv
    ensures Advanced(m, supply, lv, m[f := t], supply, lv, pml4, true) && Ready(m[f := t], supply, lv, pml4)
    ensures forall p :: At4(p) ==> Locate(m[f := t], pml4, p) == Locate(m, pml4, p)
  {
    var e := m[f := t];
    assert Leveled(e, lv, pml4);
    forall p | At4(p) ensures Locate(e, pml4, p) == Locate(m, pml4, p) {
      LocateKept(m, e, lv, pml4, pml4, p);
    }
  }

  /** Every page that the segment has yet to fill is free of tables and of frames to come. */
  ghost predicate FreeFrom(m: Memory, supply: seq<nat>, lv: Levels, pml4: nat, ph: ProgramHeader, offset: nat) {
    forall va :: ph.vaddr + offset <= va < ph.vaddr + ph.memSize ==> Free(Locate(m, pml4, PathOf(va)), supply, lv)
  }

  lemma {:induction false} FillAdvanced(m: Memory, supply: seq<nat>, lv: Levels, pml4: nat, data: seq<Byte>,
                                        ph: ProgramHeader, offset: nat, s: Storing)
    requires Ready(m, supply, lv, pml4) && ph.fileOffset + ph.fileSize <= |data| && ph.fileSize <= ph.memSize
    requires FreeFrom(m, supply, lv, pml4, ph, offset) && s == FillIn(m, pml4, data, ph, offset) && s.ok
    ensures Advanced(m, supply, lv, s.mem, supply, lv, pml4, true)
    decreases ph.memSize - offset
  {
    hide Leveled, Advanced, PathOf, SegmentBytes, StoreBytes, Locate, FillIn, NextChunk, ValidSupply;
    if offset >= ph.memSize {
      FillNone(m, pml4, data, ph, offset);
      AdvancedRefl(m, supply, lv, pml4, true);
    } else {
      FillStep(m, pml4, data, ph, offset);
      var va, n := ph.vaddr + offset, NextChunk(ph, offset);
      var bytes := SegmentBytes(data, ph, offset, n);
      var a := StoreIn(m, pml4, va, bytes);
      assert a.ok && Free(Locate(m, pml4, PathOf(va)), supply, lv);
      var f := Locate(m, pml4, PathOf(va)).frame;
      PageWritten(m, supply, lv, pml4, f, StoreBytes(m[f], va % PAGE_SIZE, bytes));
      FillAdvanced(a.mem, supply, lv, pml4, data, ph, offset + n, s);
      AdvancedTwice(m, supply, lv, a.mem, supply, lv, s.mem, supply, lv, pml4, true, true);
    }
  }

  lemma AdvancedFree(m: Memory, supply: seq<nat>, lv: Levels, e: Memory, supply': seq<nat>, lv': Levels, pml4: nat,
                     lower: bool, path: seq<nat>)
    requires Advanced(m, supply, lv, e, supply', lv', pml4, lower) && At4(path)
    requires Free(Locate(m, pml4, path), supply, lv)
    ensures Free(Locate(e, pml4, path), supply', lv')
    ensures Locate(m, pml4, path).At? ==> Locate(e, pml4, path) == Locate(m, pml4, path)
  {
    hide Leveled, RootKept, Locate;
    assert Placed(Locate(m, pml4, path), Locate(e, pml4, path), supply, lv', supply');
  }

  // ---- Segments ----

  lemma SegmentAdvanced(m: Memory, supply: seq<nat>, lv: Levels, pml4: nat, data: seq<Byte>, ph: ProgramHeader,
                        r: Mapping)
    returns (lv': Levels)
    requires Ready(m, supply, lv, pml4) && ph.memSize > 0 && ph.fileOffset + ph.fileSize <= |data|
    requires ph.fileSize <= ph.memSize && FreeFrom(m, supply, lv, pml4, ph, 0)
    requires r == SegmentIn(m, supply, pml4, data, ph) && r.ok
    ensures Advanced(m, supply, lv, r.mem, r.supply, lv', pml4, ph.vaddr < LOWER_HALF_END)
    ensures Bit(r.mem[pml4][PathOf(ph.vaddr)[0]].lo, USER)
    ensures Canonical(ph.vaddr) && Canonical(ph.vaddr + ph.memSize)
  {
    hide Leveled, PathOf, AllPlaced, RegionIn, FillIn, Locate;
    var a := RegionIn(m, supply, pml4, ph.vaddr, ph.memSize, SegmentFlags(ph));
    var lower := ph.vaddr < LOWER_HALF_END;
    lv' := RegionAdvanced(m, supply, lv, pml4, ph.vaddr, ph.memSize, SegmentFlags(ph), a);
    AdvancedReady(m, supply, lv, a.mem, a.supply, lv', pml4, lower);
    forall va | ph.vaddr + 0 <= va < ph.vaddr + ph.memSize
      ensures Free(Locate(a.mem, pml4, PathOf(va)), a.supply, lv')
    {
      AdvancedFree(m, supply, lv, a.mem, a.supply, lv', pml4, lower, PathOf(va));
    }
    FillAdvanced(a.mem, a.supply, lv', pml4, data, ph, 0, FillIn(a.mem, pml4, data, ph, 0));
    AdvancedTwice(m, supply, lv, a.mem, a.supply, lv', r.mem, r.supply, lv', pml4, lower, true);
  }

  /** The segment that program header `i` describes, when it takes up memory. */
  function SegmentAt(data: seq<Byte>, h: Header, i: nat): Option<ProgramHeader>
    requires 56 <= h.phentsize
  {
    match ParseProgramHeader(data, h, i)
    case Ok(Some(ph)) => if ph.memSize > 0 then Some(ph) else None
    case _ => None
  }

  /** One of the first `n` program headers describes a segment that starts in the upper half. */
  ghost predicate UpperSegment(data: seq<Byte>, h: Header, n: nat)
    requires 56 <= h.phentsize
  {
    exists i :: 0 <= i < n && SegmentAt(data, h, i).Some? && SegmentAt(data, h, i).value.vaddr >= LOWER_HALF_END
  }

  /** No address of the segments is mapped to a table or to a frame still to be handed out. */
  ghost predicate Clear(m: Memory, supply: seq<nat>, lv: Levels, pml4: nat, data: seq<Byte>, h: Header)
    requires 56 <= h.phentsize
  {
    forall i :: 0 <= i < h.phnum && SegmentAt(data, h, i).Some? ==>
      FreeFrom(m, supply, lv, pml4, SegmentAt(data, h, i).value, 0)
  }

  lemma AdvancedClear(m: Memory, supply: seq<nat>, lv: Levels, e: Memory, supply': seq<nat>, lv': Levels, pml4: nat,
                      lower: bool, data: seq<Byte>, h: Header)
    requires 56 <= h.phentsize && Advanced(m, supply, lv, e, supply', lv', pml4, lower)
    requires Clear(m, supply, lv, pml4, data, h)
    ensures Clear(e, supply', lv', pml4, data, h)
  {
    hide Advanced, PathOf, Locate, SegmentAt, Free;
    forall i, va | 0 <= i < h.phnum && SegmentAt(data, h, i).Some?
                   && SegmentAt(data, h, i).value.vaddr + 0 <= va
                      < SegmentAt(data, h, i).value.vaddr + SegmentAt(data, h, i).value.memSize
      ensures Free(Locate(e, pml4, PathOf(va)), supply', lv')
    {
      assert FreeFrom(m, supply, lv, pml4, SegmentAt(data, h, i).value, 0);
      AdvancedFree(m, supply, lv, e, supply', lv', pml4, lower, PathOf(va));
    }
  }

  /** What one program header adds. */
  lemma HeaderAdvanced(m: Memory, supply: seq<nat>, lv: Levels, pml4: nat, data: seq<Byte>, h: Header, i: nat,
                       l: Loading)
    returns (lv': Levels)
    requires Ready(m, supply, lv, pml4) && 56 <= h.phentsize && i < h.phnum && Clear(m, supply, lv, pml4, data, h)
    requires l == HeaderIn(m, supply, pml4, data, h, i) && l.outcome == Done
    ensures var seg := SegmentAt(data, h, i);
            && Advanced(m, supply, lv, l.mem, l.supply, lv', pml4, seg.Some? ==> seg.value.vaddr < LOWER_HALF_END)
            && (seg.Some? ==> SegmentOpen(l.mem, pml4, seg.value))
  {
    hide Leveled, PathOf, Advanced, SegmentIn, Locate, Clear, ParseProgramHeader, FreeFrom;
    var seg := SegmentAt(data, h, i);
    if seg.None? {
      lv' := lv;
      AdvancedRefl(m, supply, lv, pml4, true);
    } else {
      ClearSegment(m, supply, lv, pml4, data, h, i);
      lv' := SegmentAdvanced(m, supply, lv, pml4, data, seg.value, SegmentIn(m, supply, pml4, data, seg.value));
    }
  }

  /** The segment's first PML4 entry is open to user code, and its addresses are addresses. */
  ghost predicate SegmentOpen(m: Memory, pml4: nat, ph: ProgramHeader) {
    && pml4 in m && Bit(m[pml4][PathOf(ph.vaddr)[0]].lo, USER)
    && Canonical(ph.vaddr) && Canonical(ph.vaddr + ph.memSize)
  }

  lemma StaysOpen(m: Memory, supply: seq<nat>, lv: Levels, e: Memory, supply': seq<nat>, lv': Levels, pml4: nat,
                  lower: bool, ph: ProgramHeader)
    requires Advanced(m, supply, lv, e, supply', lv', pml4, lower) && SegmentOpen(m, pml4, ph)
    ensures SegmentOpen(e, pml4, ph)
  {
    hide Leveled, AllPlaced, PathOf, LevelsGrown;
  }

  lemma {:induction false} HeadersAdvanced(m: Memory, supply: seq<nat>, lv: Levels, pml4: nat, data: seq<Byte>,
                                           h: Header, n: nat, l: Loading)
    returns (lv': Levels)
    requires Ready(m, supply, lv, pml4) && 56 <= h.phentsize && n <= h.phnum && Clear(m, supply, lv, pml4, data, h)
    requires l == HeadersIn(m, supply, pml4, data, h, n) && l.outcome == Done
    ensures Advanced(m, supply, lv, l.mem, l.supply, lv', pml4, !UpperSegment(data, h, n))
    ensures forall i :: 0 <= i < n && SegmentAt(data, h, i).Some? ==>
              SegmentOpen(l.mem, pml4, SegmentAt(data, h, i).value)
  {
    hide Leveled, ValidSupply, Advanced, HeaderIn, Clear, SegmentAt, SegmentOpen, UpperSegment;
    NoneUpper(data, h);
    if n == 0 {
      lv' := lv;
      AdvancedRefl(m, supply, lv, pml4, true);
    } else {
      var a := HeadersIn(m, supply, pml4, data, h, n - 1);
      var l1 := HeadersAdvanced(m, supply, lv, pml4, data, h, n - 1, a);
      var lower := !UpperSegment(data, h, n - 1);
      StillReady(m, supply, lv, a.mem, a.supply, l1, pml4, lower, data, h);
      var seg := SegmentAt(data, h, n - 1);
      var lower' := seg.Some? ==> seg.value.vaddr < LOWER_HALF_END;
      lv' := HeaderAdvanced(a.mem, a.supply, l1, pml4, data, h, n - 1, l);
      AdvancedTwice(m, supply, lv, a.mem, a.supply, l1, l.mem, l.supply, lv', pml4, lower, lower');
      OneMoreUpper(data, h, n);
      forall i | 0 <= i < n - 1 && SegmentAt(data, h, i).Some?
        ensures SegmentOpen(l.mem, pml4, SegmentAt(data, h, i).value)
      {
        StaysOpen(a.mem, a.supply, l1, l.mem, l.supply, lv', pml4, lower', SegmentAt(data, h, i).value);
      }
    }
  }

  lemma NoneUpper(data: seq<Byte>, h: Header)
    requires 56 <= h.phentsize
    ensures !UpperSegment(data, h, 0)
  {}

  lemma OneMoreUpper(data: seq<Byte>, h: Header, n: nat)
    requires 56 <= h.phentsize && n > 0
    ensures var seg := SegmentAt(data, h, n - 1);
            UpperSegment(data, h, n) <==>
            UpperSegment(data, h, n - 1) || (seg.Some? && seg.value.vaddr >= LOWER_HALF_END)
  {
    hide SegmentAt;
  }

  lemma StillReady(m: Memory, supply: seq<nat>, lv: Levels, e: Memory, supply': seq<nat>, lv': Levels, pml4: nat,
                   lower: bool, data: seq<Byte>, h: Header)
    requires Ready(m, supply, lv, pml4) && Advanced(m, supply, lv, e, supply', lv', pml4, lower)
    requires 56 <= h.phentsize && ValidSupply(e, supply') && Clear(m, supply, lv, pml4, data, h)
    ensures Ready(e, supply', lv', pml4) && Clear(e, supply', lv', pml4, data, h)
  {
    hide Ready, Advanced, Clear, ValidSupply;
    AdvancedReady(m, supply, lv, e, supply', lv', pml4, lower);
    AdvancedClear(m, supply, lv, e, supply', lv', pml4, lower, data, h);
  }

  lemma ClearSegment(m: Memory, supply: seq<nat>, lv: Levels, pml4: nat, data: seq<Byte>, h: Header, i: nat)
    requires 56 <= h.phentsize && i < h.phnum && Clear(m, supply, lv, pml4, data, h) && SegmentAt(data, h, i).Some?
    ensures FreeFrom(m, supply, lv, pml4, SegmentAt(data, h, i).value, 0)
  {
    hide FreeFrom;
  }

  // ---- The whole call ----

  /** The tables below the upper half of the running PML4, by level: none of them is still to be handed out. */
  ghost predicate KernelLevels(m: Memory, supply: seq<nat>, kl: Levels, cr3: nat) {
    && cr3 in m && (forall f :: f in kl ==> f in m && 1 <= kl[f] <= 3 && f !in supply)
    && (forall i :: 256 <= i < 512 && !Unused(m[cr3][i]) ==> NextLevel(kl, 4, m[cr3][i]))
    && (forall f, i :: f in kl && kl[f] >= 2 && 0 <= i < 512 && !Unused(m[f][i]) ==> NextLevel(kl, kl[f], m[f][i]))
  }

  /** No upper-half address of the segments is mapped to a table or to a frame still to be handed out. */
  ghost predicate KernelClear(m: Memory, supply: seq<nat>, kl: Levels, cr3: nat, data: seq<Byte>, h: Header)
    requires 56 <= h.phentsize
  {
    forall i, va: nat :: 0 <= i < h.phnum && UpperAddress(SegmentAt(data, h, i), va) ==>
      Free(Locate(m, cr3, PathOf(va)), supply, kl)
  }

  predicate UpperAddress(seg: Option<ProgramHeader>, va: nat) {
    seg.Some? && InSegment(seg.value, va) && va >= LOWER_HALF_END
  }

  predicate InSegment(ph: ProgramHeader, va: nat) {
    ph.vaddr <= va < ph.vaddr + ph.memSize
  }

  lemma StartLeveled(m: Memory, supply: seq<nat>, kl: Levels, cr3: nat)
    requires ValidSupply(m, supply) && supply != [] && KernelLevels(m, supply, kl, cr3)
    ensures Ready(m[supply[0] := ProcessRoot(m[cr3])], supply[1..], kl[supply[0] := 4], supply[0])
  {
    FirstInSupply(m, supply);
    var p := supply[0];
    var m1, lv := m[p := ProcessRoot(m[cr3])], kl[p := 4];
    forall f, i | f in lv && lv[f] >= 2 && 0 <= i < 512 && !Unused(m1[f][i]) ensures NextLevel(lv, lv[f], m1[f][i]) {
      if f == p {
        assert NextLevel(kl, 4, m[cr3][i]);
      } else {
        assert NextLevel(kl, kl[f], m[f][i]);
      }
    }
  }

  /** The new PML4 finds upper-half pages where the running one does, and no others. */
  lemma StartLocate(m: Memory, supply: seq<nat>, kl: Levels, cr3: nat, path: seq<nat>)
    requires ValidSupply(m, supply) && supply != [] && KernelLevels(m, supply, kl, cr3) && At4(path)
    ensures Locate(m[supply[0] := ProcessRoot(m[cr3])], supply[0], path)
            == if path[0] < 256 then Absent else Locate(m, cr3, path)
  {
    FirstInSupply(m, supply);
    BitOfZero(PRESENT);
    var p := supply[0];
    var m1 := m[p := ProcessRoot(m[cr3])];
    var w := m1[p][path[0]];
    if path[0] >= 256 && Bit(w.lo, PRESENT) && !Bit(w.lo, HUGE) {
      assert NextLevel(kl, 4, m[cr3][path[0]]);
      BelowKept(m, m1, kl, w.frame, path[1..], supply, cr3);
    }
  }

  lemma {:induction false} BelowKept(m: Memory, e: Memory, kl: Levels, g: nat, path: seq<nat>, supply: seq<nat>,
                                     cr3: nat)
    requires KernelLevels(m, supply, kl, cr3) && g in kl && kl[g] == |path| && ValidPath(path)
    requires forall f :: f in kl ==> f in m && f in e && e[f] == m[f]
    ensures Locate(e, g, path) == Locate(m, g, path)
    decreases |path|
  {
    var w := m[g][path[0]];
    if |path| > 1 && Bit(w.lo, PRESENT) && !Bit(w.lo, HUGE) {
      BitOfZero(PRESENT);
      assert NextLevel(kl, kl[g], w);
      BelowKept(m, e, kl, w.frame, path[1..], supply, cr3);
    }
  }

  lemma StartClear(m: Memory, supply: seq<nat>, kl: Levels, cr3: nat, data: seq<Byte>, h: Header)
    requires ValidSupply(m, supply) && supply != [] && KernelLevels(m, supply, kl, cr3) && 56 <= h.phentsize
    requires cr3 in m && KernelClear(m, supply, kl, cr3, data, h)
    ensures Clear(m[supply[0] := ProcessRoot(m[cr3])], supply[1..], kl[supply[0] := 4], supply[0], data, h)
  {
    hide PathOf, Locate, SegmentAt, KernelLevels, ValidSupply;
    var p := supply[0];
    var m1, lv := m[p := ProcessRoot(m[cr3])], kl[p := 4];
    FirstInSupply(m, supply);
    forall i, va: nat | 0 <= i < h.phnum && SegmentAt(data, h, i).Some? && InSegment(SegmentAt(data, h, i).value, va)
      ensures Free(Locate(m1, p, PathOf(va)), supply[1..], lv)
    {
      StartLocate(m, supply, kl, cr3, PathOf(va));
      if va < LOWER_HALF_END {
        LowerPath(va);
      } else {
        assert UpperAddress(SegmentAt(data, h, i), va);
      }
    }
    forall i | 0 <= i < h.phnum && SegmentAt(data, h, i).Some?
      ensures FreeFrom(m1, supply[1..], lv, p, SegmentAt(data, h, i).value, 0)
    {
      forall va | SegmentAt(data, h, i).value.vaddr + 0 <= va
                  < SegmentAt(data, h, i).value.vaddr + SegmentAt(data, h, i).value.memSize
        ensures Free(Locate(m1, p, PathOf(va)), supply[1..], lv)
      {
        assert InSegment(SegmentAt(data, h, i).value, va);
      }
    }
  }

  /** What holds of the running PML4 and of the image `data` when `new_from_elf` is called. */
  ghost predicate Before(m: Memory, supply: seq<nat>, kl: Levels, data: seq<Byte>, cr3: nat) {
    && Sound(m, supply, cr3) && KernelLevels(m, supply, kl, cr3) && ParseHeader(data).Ok?
    && KernelClear(m, supply, kl, cr3, data, ParseHeader(data).value)
  }

  ghost predicate Loads(m: Memory, supply: seq<nat>, kl: Levels, data: seq<Byte>, cr3: nat) {
    Before(m, supply, kl, data, cr3) && LoadIn(m, supply, data, cr3).result.Loaded?
  }

  /** The first part of a load: the new PML4 and the stack. */
  ghost function StackIn(m: Memory, supply: seq<nat>, cr3: nat): Mapping
    requires Sound(m, supply, cr3) && supply != []
  {
    FirstInSupply(m, supply);
    RegionIn(m[supply[0] := ProcessRoot(m[cr3])], supply[1..], supply[0], USER_STACK_START, USER_STACK_SIZE,
             RegionFlags(true, false))
  }

  lemma LoadParts(m: Memory, supply: seq<nat>, data: seq<Byte>, cr3: nat)
    requires Sound(m, supply, cr3) && LoadIn(m, supply, data, cr3).result.Loaded?
    ensures supply != [] && ParseHeader(data).Ok?
    ensures var s, h, r := LoadIn(m, supply, data, cr3), ParseHeader(data).value, StackIn(m, supply, cr3);
            && s.result.pml4 == supply[0] && r.ok && Sound(r.mem, r.supply, supply[0])
            && var l := HeadersIn(r.mem, r.supply, supply[0], data, h, h.phnum);
               l.outcome == Done && l.mem == s.mem && l.supply == s.supply
  {
    hide ParseHeader, RegionIn, HeadersIn, ValidSupply;
  }

  lemma StackAdvanced(m: Memory, supply: seq<nat>, kl: Levels, data: seq<Byte>, cr3: nat) returns (lv: Levels)
    requires Before(m, supply, kl, data, cr3) && supply != [] && StackIn(m, supply, cr3).ok
    ensures supply[0] in m
    ensures var m1, h, r := m[supply[0] := ProcessRoot(m[cr3])], ParseHeader(data).value, StackIn(m, supply, cr3);
            && Advanced(m1, supply[1..], kl[supply[0] := 4], r.mem, r.supply, lv, supply[0], true)
            && Ready(r.mem, r.supply, lv, supply[0]) && Clear(r.mem, r.supply, lv, supply[0], data, h)
  {
    hide Leveled, Advanced, RegionIn, ParseHeader, KernelClear, Clear, KernelLevels;
    FirstInSupply(m, supply);
    var p, h, r := supply[0], ParseHeader(data).value, StackIn(m, supply, cr3);
    var m1, l1 := m[p := ProcessRoot(m[cr3])], kl[p := 4];
    StartLeveled(m, supply, kl, cr3);
    StartClear(m, supply, kl, cr3, data, h);
    lv := RegionAdvanced(m1, supply[1..], l1, p, USER_STACK_START, USER_STACK_SIZE, RegionFlags(true, false), r);
    AdvancedReady(m1, supply[1..], l1, r.mem, r.supply, lv, p, true);
    AdvancedClear(m1, supply[1..], l1, r.mem, r.supply, lv, p, true, data, h);
  }

  predicate SupervisorOnly(t: Table) {
    forall i :: 256 <= i < 512 ==> !Bit(t[i].lo, USER)
  }

  /** Whatever the image, and however the kernel's half is mapped: when none of its PML4 entries is open to user code, a
      successful load leaves the process with the kernel's entries if and only if no segment that takes up memory
      starts in the upper half. */
  lemma KernelHalfKept(m: Memory, supply: seq<nat>, kl: Levels, data: seq<Byte>, cr3: nat)
    requires Loads(m, supply, kl, data, cr3) && SupervisorOnly(m[cr3])
    ensures var s, h := LoadIn(m, supply, data, cr3), ParseHeader(data).value;
            && s.result.pml4 in s.mem
            && ((forall i :: 256 <= i < 512 ==> s.mem[s.result.pml4][i] == m[cr3][i])
                <==> !UpperSegment(data, h, h.phnum))
  {
    hide Leveled, RegionIn, ParseHeader, HeadersIn, LoadIn, KernelClear, Clear, KernelLevels, AllPlaced, PathOf,
         SegmentAt;
    LoadParts(m, supply, data, cr3);
    var s, h, p, r := LoadIn(m, supply, data, cr3), ParseHeader(data).value, supply[0], StackIn(m, supply, cr3);
    var m1 := m[p := ProcessRoot(m[cr3])];
    var lv := StackAdvanced(m, supply, kl, data, cr3);
    var l := HeadersIn(r.mem, r.supply, p, data, h, h.phnum);
    var lv' := HeadersAdvanced(r.mem, r.supply, lv, p, data, h, h.phnum, l);
    AdvancedTwice(m1, supply[1..], kl[p := 4], r.mem, r.supply, lv, l.mem, l.supply, lv', p, true,
                  !UpperSegment(data, h, h.phnum));
    if UpperSegment(data, h, h.phnum) {
      var i :| 0 <= i < h.phnum && SegmentAt(data, h, i).Some? && SegmentAt(data, h, i).value.vaddr >= LOWER_HALF_END;
      var va := SegmentAt(data, h, i).value.vaddr;
      UpperPath(va);
      assert Bit(l.mem[p][PathOf(va)[0]].lo, USER) && !Bit(m[cr3][PathOf(va)[0]].lo, USER);
    }
  }

  // ---- What is written ----

  /** From `x` to `y`, the bytes of the segment are in the frame of the one page it lies on. */
  ghost predicate Holds(t: Table, data: seq<Byte>, ph: ProgramHeader, x: nat, y: nat)
    requires ph.fileOffset + ph.fileSize <= |data|
  {
    var at := ph.vaddr % PAGE_SIZE;
    forall k :: at + x <= k < at + y && k < PAGE_SIZE ==> FrameByte(t, k) == SegmentByte(data, ph, k - at)
  }

  predicate OnePage(data: seq<Byte>, ph: ProgramHeader) {
    && ph.vaddr % PAGE_SIZE + ph.memSize <= PAGE_SIZE
    && ph.fileOffset + ph.fileSize <= |data| && ph.fileSize <= ph.memSize
  }

  lemma PageOffset(va: nat, x: nat)
    requires va % PAGE_SIZE + x < PAGE_SIZE
    ensures (va + x) % PAGE_SIZE == va % PAGE_SIZE + x && PathOf(va + x) == PathOf(va)
  {
    hide PathOf;
    assert (va + x) / PAGE_SIZE == va / PAGE_SIZE;
    SamePagePath(va + x);
    SamePagePath(va);
  }

  /** One chunk of a segment that lies on one page. */
  lemma ChunkFilled(m: Memory, pml4: nat, data: seq<Byte>, ph: ProgramHeader, f: nat, x: nat, y: nat) returns (t: Table)
    requires OnePage(data, ph) && x < y <= ph.memSize && y == (if x < ph.fileSize then ph.fileSize else ph.memSize)
    requires Locate(m, pml4, PathOf(ph.vaddr)) == At(f) && f in m && Holds(m[f], data, ph, 0, x)
    ensures FillIn(m, pml4, data, ph, x) == FillIn(m[f := t], pml4, data, ph, y)
    ensures Holds(t, data, ph, 0, y)
  {
    hide PathOf, Locate, Holds, StoreBytes, SegmentBytes, FillIn;
    var va := ph.vaddr + x;
    FillStep(m, pml4, data, ph, x);
    PageOffset(ph.vaddr, x);
    var bytes := SegmentBytes(data, ph, x, y - x);
    t := StoreBytes(m[f], ph.vaddr % PAGE_SIZE + x, bytes);
    assert NextChunk(ph, x) == y - x;
    assert StoreIn(m, pml4, va, bytes) == Storing(m[f := t], true);
    ChunkHeld(m[f], data, ph, x, y);
  }

  lemma ChunkHeld(t: Table, data: seq<Byte>, ph: ProgramHeader, x: nat, y: nat)
    requires OnePage(data, ph) && x < y <= ph.memSize && Holds(t, data, ph, 0, x)
    ensures Holds(StoreBytes(t, ph.vaddr % PAGE_SIZE + x, SegmentBytes(data, ph, x, y - x)), data, ph, 0, y)
  {
    hide FrameByte, StoreBytes, SegmentByte;
    var at, bytes := ph.vaddr % PAGE_SIZE, SegmentBytes(data, ph, x, y - x);
    var u := StoreBytes(t, at + x, bytes);
    forall k | at <= k < at + y && k < PAGE_SIZE ensures FrameByte(u, k) == SegmentByte(data, ph, k - at) {
      if at + x <= k {
        assert bytes[k - (at + x)] == SegmentByte(data, ph, x + (k - (at + x)));
      }
    }
  }

  /** A segment that lies on one page, which is mapped: the two loops store its bytes in the frame behind it. */
  lemma {:induction false} PageFilled(m: Memory, supply: seq<nat>, lv: Levels, pml4: nat, data: seq<Byte>,
                                      ph: ProgramHeader, f: nat, x: nat)
    requires Ready(m, supply, lv, pml4) && OnePage(data, ph) && f in m && f !in lv
    requires Locate(m, pml4, PathOf(ph.vaddr)) == At(f)
    requires Holds(m[f], data, ph, 0, x) && (x == 0 || x == ph.fileSize || x == ph.memSize)
    ensures var s := FillIn(m, pml4, data, ph, x);
            s.ok && f in s.mem && Holds(s.mem[f], data, ph, 0, ph.memSize)
    decreases ph.memSize - x
  {
    hide Leveled, PathOf, Locate, FrameByte, Holds;
    if x < ph.memSize {
      var y := if x < ph.fileSize then ph.fileSize else ph.memSize;
      var t := ChunkFilled(m, pml4, data, ph, f, x, y);
      PageWritten(m, supply, lv, pml4, f, t);
      PageFilled(m[f := t], supply, lv, pml4, data, ph, f, y);
    }
  }

  lemma {:induction false} HeadersDone(m: Memory, supply: seq<nat>, pml4: nat, data: seq<Byte>, h: Header, i: nat,
                                       n: nat)
    requires Sound(m, supply, pml4) && 56 <= h.phentsize && i <= n
    requires HeadersIn(m, supply, pml4, data, h, n).outcome == Done
    ensures HeadersIn(m, supply, pml4, data, h, i).outcome == Done
    ensures (forall j :: i <= j < n ==> SegmentAt(data, h, j).None?) ==>
              HeadersIn(m, supply, pml4, data, h, n) == HeadersIn(m, supply, pml4, data, h, i)
  {
    hide HeaderIn, SegmentAt;
    if i < n {
      HeadersDone(m, supply, pml4, data, h, i, n - 1);
      var l := HeadersIn(m, supply, pml4, data, h, n - 1);
      if SegmentAt(data, h, n - 1).None? {
        HeaderIdle(l.mem, l.supply, pml4, data, h, n - 1);
      }
    }
  }

  lemma HeaderIdle(m: Memory, supply: seq<nat>, pml4: nat, data: seq<Byte>, h: Header, i: nat)
    requires Sound(m, supply, pml4) && 56 <= h.phentsize && SegmentAt(data, h, i).None?
    requires HeaderIn(m, supply, pml4, data, h, i).outcome == Done
    ensures HeaderIn(m, supply, pml4, data, h, i) == Loading(m, supply, Done)
  {
    hide ParseProgramHeader, SegmentIn;
  }

  /** A segment that lies on one mapped page: loading it succeeds, and stores the bytes of the segment in the frame
      that was mapped there. */
  lemma SegmentStored(m: Memory, supply: seq<nat>, lv: Levels, pml4: nat, data: seq<Byte>, ph: ProgramHeader, f: nat)
    requires Ready(m, supply, lv, pml4) && OnePage(data, ph) && ph.memSize > 0 && f in m
    requires Canonical(ph.vaddr) && Canonical(ph.vaddr + ph.memSize) && ph.vaddr >= LOWER_HALF_END
    requires Locate(m, pml4, PathOf(ph.vaddr)) == At(f) && f !in supply && f !in lv
    ensures var r := SegmentIn(m, supply, pml4, data, ph);
            r.ok && f in r.mem && Holds(r.mem[f], data, ph, 0, ph.memSize)
  {
    hide Leveled, PathOf, Locate, FrameByte, Advanced, FillIn, UserEntry, WriteEntry, SegmentFlags;
    var flags := SegmentFlags(ph);
    var a := RegionIn(m, supply, pml4, ph.vaddr, ph.memSize, flags);
    var page := ph.vaddr / PAGE_SIZE;
    assert LastPage(ph.vaddr, ph.memSize) == page > LAST_LOWER_PAGE;
    SamePagePath(ph.vaddr);
    assert PageIn(m, supply, pml4, page, flags) == Mapping(m, supply, true);
    assert PagesIn(m, supply, pml4, page + 1, page, flags) == Mapping(m, supply, true);
    assert a.ok;
    var lv' := RegionAdvanced(m, supply, lv, pml4, ph.vaddr, ph.memSize, flags, a);
    AdvancedFree(m, supply, lv, a.mem, a.supply, lv', pml4, false, PathOf(ph.vaddr));
    AdvancedReady(m, supply, lv, a.mem, a.supply, lv', pml4, false);
    PageFilled(a.mem, a.supply, lv', pml4, data, ph, f, 0);
  }

  /** The last segment of an image lies on one page of the upper half, which the kernel has mapped: after the load the
      kernel's frame holds the bytes of the segment, though it was never to be handed out. */
  lemma KernelFrameWritten(m: Memory, supply: seq<nat>, kl: Levels, data: seq<Byte>, cr3: nat, i: nat, f: nat)
    requires Loads(m, supply, kl, data, cr3)
    requires var h := ParseHeader(data).value;
             && i < h.phnum && SegmentAt(data, h, i).Some? && SegmentAt(data, h, i).value.vaddr >= LOWER_HALF_END
             && OnePage(data, SegmentAt(data, h, i).value)
             && (forall j :: i < j < h.phnum ==> SegmentAt(data, h, j).None?)
             && Locate(m, cr3, PathOf(SegmentAt(data, h, i).value.vaddr)) == At(f) && f in m
    ensures var s, ph := LoadIn(m, supply, data, cr3), SegmentAt(data, ParseHeader(data).value, i).value;
            f !in supply && f in s.mem && Holds(s.mem[f], data, ph, 0, ph.memSize)
  {
    hide Leveled, PathOf, Locate, Advanced, RegionIn, ParseHeader, ParseProgramHeader, HeadersIn, LoadIn, KernelClear,
         Clear, KernelLevels, SegmentIn, Holds, OnePage, UpperSegment, ValidSupply;
    var h := ParseHeader(data).value;
    var ph := SegmentAt(data, h, i).value;
    var va := ph.vaddr;
    LoadParts(m, supply, data, cr3);
    var p, r := supply[0], StackIn(m, supply, cr3);
    var m1 := m[p := ProcessRoot(m[cr3])];
    var lv := StackAdvanced(m, supply, kl, data, cr3);
    var l := HeadersIn(r.mem, r.supply, p, data, h, h.phnum);
    var all := HeadersAdvanced(r.mem, r.supply, lv, p, data, h, h.phnum, l);
    UpperPath(va);
    StartLocate(m, supply, kl, cr3, PathOf(va));
    ClearStart(m, supply, kl, cr3, data, h, i);
    AdvancedFree(m1, supply[1..], kl[p := 4], r.mem, r.supply, lv, p, true, PathOf(va));
    HeadersDone(r.mem, r.supply, p, data, h, i, h.phnum);
    HeadersDone(r.mem, r.supply, p, data, h, i + 1, h.phnum);
    var a := HeadersIn(r.mem, r.supply, p, data, h, i);
    var la := HeadersAdvanced(r.mem, r.supply, lv, p, data, h, i, a);
    AdvancedFree(r.mem, r.supply, lv, a.mem, a.supply, la, p, !UpperSegment(data, h, i), PathOf(va));
    AdvancedReady(r.mem, r.supply, lv, a.mem, a.supply, la, p, !UpperSegment(data, h, i));
    HeaderSegment(r.mem, r.supply, p, data, h, i);
    SegmentStored(a.mem, a.supply, la, p, data, ph, f);
  }

  /** The first address of a segment in the upper half, when it is mapped, is not in a frame to be handed out. */
  lemma ClearStart(m: Memory, supply: seq<nat>, kl: Levels, cr3: nat, data: seq<Byte>, h: Header, i: nat)
    requires 56 <= h.phentsize && KernelClear(m, supply, kl, cr3, data, h) && supply != []
    requires i < h.phnum && SegmentAt(data, h, i).Some? && SegmentAt(data, h, i).value.vaddr >= LOWER_HALF_END
    ensures var at := Locate(m, cr3, PathOf(SegmentAt(data, h, i).value.vaddr));
            Free(at, supply, kl) && Free(at, supply[1..], kl[supply[0] := 4])
  {
    hide PathOf, Locate, ParseProgramHeader;
    var seg := SegmentAt(data, h, i);
    assert UpperAddress(seg, seg.value.vaddr);
  }

  lemma HeaderSegment(m: Memory, supply: seq<nat>, pml4: nat, data: seq<Byte>, h: Header, i: nat)
    requires Sound(m, supply, pml4) && 56 <= h.phentsize && SegmentAt(data, h, i).Some?
    requires HeadersIn(m, supply, pml4, data, h, i + 1).outcome == Done
    ensures var a, b, ph := HeadersIn(m, supply, pml4, data, h, i), HeadersIn(m, supply, pml4, data, h, i + 1),
                            SegmentAt(data, h, i).value;
            && ph.memSize > 0 && ph.fileOffset + ph.fileSize <= |data| && ph.fileSize <= ph.memSize
            && var r := SegmentIn(a.mem, a.supply, pml4, data, ph); r.ok && b.mem == r.mem && b.supply == r.supply
  {
    hide ParseProgramHeader, SegmentIn;
  }

  /** With an entry point that is an address and frames for the stack, an image of one segment that lies on a mapped
      page of the upper half loads. */
  lemma UpperImageLoads(m: Memory, supply: seq<nat>, kl: Levels, data: seq<Byte>, cr3: nat, f: nat)
    requires Before(m, supply, kl, data, cr3) && Canonical(ParseHeader(data).value.entry)
    requires |ProcessLoading.ImageNodes([])| <= |supply| && ParseHeader(data).value.phnum == 1
    requires SegmentAt(data, ParseHeader(data).value, 0).Some?
    requires var ph := SegmentAt(data, ParseHeader(data).value, 0).value;
             && OnePage(data, ph) && UPPER_HALF_START <= ph.vaddr && ph.vaddr + ph.memSize < TWO_64
             && Locate(m, cr3, PathOf(ph.vaddr)) == At(f) && f in m
    ensures Loads(m, supply, kl, data, cr3)
  {
    hide Leveled, PathOf, Locate, Advanced, RegionIn, ParseHeader, ParseProgramHeader, KernelClear, Clear, KernelLevels,
         SegmentIn, Holds;
    StackFits(m, supply, cr3);
    var h := ParseHeader(data).value;
    var ph, p, r := SegmentAt(data, h, 0).value, supply[0], StackIn(m, supply, cr3);
    var lv := StackAdvanced(m, supply, kl, data, cr3);
    UpperPath(ph.vaddr);
    StartLocate(m, supply, kl, cr3, PathOf(ph.vaddr));
    ClearStart(m, supply, kl, cr3, data, h, 0);
    AdvancedFree(m[p := ProcessRoot(m[cr3])], supply[1..], kl[p := 4], r.mem, r.supply, lv, p, true, PathOf(ph.vaddr));
    SegmentStored(r.mem, r.supply, lv, p, data, ph, f);
    assert HeadersIn(r.mem, r.supply, p, data, h, 0) == Loading(r.mem, r.supply, Done);
    assert HeadersIn(r.mem, r.supply, p, data, h, 1).outcome == Done;
  }

  lemma StackFits(m: Memory, supply: seq<nat>, cr3: nat)
    requires Sound(m, supply, cr3) && |ProcessLoading.ImageNodes([])| <= |supply|
    ensures supply != [] && StackIn(m, supply, cr3).ok
  {
    hide RegionIn, ProcessLoading.RegionNodes, ValidSupply, Owned, Tree, ProcessLoading.Confined,
         ProcessLoading.RegionMapped, ProcessLoading.Filled;
    ProcessLoading.SomeNodes([]);
    ProcessLoading.StackLower();
    ProcessLoading.RootReady(m, supply, cr3);
    FirstInSupply(m, supply);
    var p := supply[0];
    var owner: Owner := map[p := []];
    var r := StackIn(m, supply, cr3);
    var owner' := ProcessLoading.RegionExtended(m[p := ProcessRoot(m[cr3])], supply[1..], owner, p, USER_STACK_START,
                                                USER_STACK_SIZE, RegionFlags(true, false), r);
    assert owner.Values == {[]} by { assert owner[p] == []; }
    assert owner.Keys == {p};
  }

  /** A one-byte segment at the kernel's own base address. The load succeeds; after it the first byte of the kernel is
      that of the file, though its frame was never to be handed out, and the process's PML4 entry for the kernel is
      not the kernel's any more. */
  lemma KernelBaseOverwritten(m: Memory, supply: seq<nat>, kl: Levels, data: seq<Byte>, cr3: nat, f: nat)
    requires Before(m, supply, kl, data, cr3) && Canonical(ParseHeader(data).value.entry) && SupervisorOnly(m[cr3])
    requires |ProcessLoading.ImageNodes([])| <= |supply| && ParseHeader(data).value.phnum == 1
    requires SegmentAt(data, ParseHeader(data).value, 0).Some?
    requires var ph := SegmentAt(data, ParseHeader(data).value, 0).value;
             && ph.vaddr == 0xFFFF_FFFF_8000_0000 && ph.memSize == ph.fileSize == 1 && ph.fileOffset < |data|
             && Locate(m, cr3, PathOf(0xFFFF_FFFF_8000_0000)) == At(f) && f in m
             && FrameByte(m[f], 0) != data[ph.fileOffset]
    ensures var s := LoadIn(m, supply, data, cr3);
            && s.result.Loaded? && f !in supply && f in s.mem && s.mem[f] != m[f]
            && !Spent(m, supply, s.mem, s.supply)
            && s.result.pml4 in s.mem && s.mem[s.result.pml4][511] != m[cr3][511]
  {
    hide Leveled, PathOf, Locate, Advanced, RegionIn, ParseHeader, ParseProgramHeader, HeadersIn, LoadIn, KernelClear,
         Clear, KernelLevels, SegmentIn, AllPlaced, ProcessLoading.ImageNodes;
    var h := ParseHeader(data).value;
    var ph := SegmentAt(data, h, 0).value;
    UpperImageLoads(m, supply, kl, data, cr3, f);
    KernelFrameWritten(m, supply, kl, data, cr3, 0, f);
    var s := LoadIn(m, supply, data, cr3);
    assert FrameByte(s.mem[f], 0) == SegmentByte(data, ph, 0) == data[ph.fileOffset];
    LoadParts(m, supply, data, cr3);
    var p, r := supply[0], StackIn(m, supply, cr3);
    var lv := StackAdvanced(m, supply, kl, data, cr3);
    var all := HeadersAdvanced(r.mem, r.supply, lv, p, data, h, 1, HeadersIn(r.mem, r.supply, p, data, h, 1));
    KernelSlot();
  }

  lemma KernelSlot()
    ensures PathOf(0xFFFF_FFFF_8000_0000)[0] == 511
  {
    assert 0xFFFF_FFFF_8000_0000 / 0x80_0000_0000 % 512 == 511;
  }
}
