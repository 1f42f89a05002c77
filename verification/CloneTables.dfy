/** Copying the user half of an address space, table by table, in physical memory. */
module CloneTables {
  import opened Words
  import opened PageTables

  /** The leaf entry written for a source leaf: a plain copy, or with copy-on-write the same
      frame with WRITABLE removed and BIT_9 inserted. */
  function LeafCopy(w: Word, cow: bool): (v: Word)
    ensures v.frame == w.frame && v.hi == w.hi
    ensures !cow ==> v == w
    ensures cow ==> forall k :: Bit(v.lo, k) == (k == 9 || (k != 1 && Bit(w.lo, k)))
  {
    if cow then Word(WithFlag(WithFlag(w.lo, WRITABLE, false), BIT_9, true), w.frame, w.hi) else w
  }

  function LeafCopyOf(o: Option<Word>, cow: bool): Option<Word> {
    match o case None => None case Some(w) => Some(LeafCopy(w, cow))
  }

  lemma BitOfZero(k: nat)
    ensures !Bit(0, k)
  {}

  lemma LeafCopyIsUsed(w: Word, cow: bool)
    requires !Unused(w)
    ensures !Unused(LeafCopy(w, cow))
  {
    BitOfZero(BIT_9);
  }

  // ---- What it means for a subtree to have been copied ----

  /** Entry `v` in memory `d` is a copy of entry `w` in memory `m`, and `used` lists, in the order
      they were taken from the allocator, exactly the frames of the tables below `v`. */
  ghost predicate Cloned(m: Memory, w: Word, d: Memory, v: Word, level: nat, cow: bool, used: seq<nat>)
    decreases level, 0
  {
    if level == 0 then
      used == [] && v == LeafCopy(w, cow)
    else
      && w.frame in m && used != [] && used[0] in d
      && v.lo == w.lo && v.hi == w.hi && v.frame == used[0]
      && ClonedFirst(m, m[w.frame], d, d[used[0]], EmptyTable(), level - 1, cow, 512, used[1..])
  }

  /** The first `n` entries of `t` in memory `d` are copies of those of `s` in memory `m`; where the
      source entry is unused, `t` has the entry of `base`. */
  ghost predicate ClonedFirst(m: Memory, s: Table, d: Memory, t: Table, base: Table,
                              level: nat, cow: bool, n: nat, used: seq<nat>)
    requires n <= 512
    decreases level, n + 1
  {
    if n == 0 then used == []
    else if Unused(s[n - 1]) then
      t[n - 1] == base[n - 1] && ClonedFirst(m, s, d, t, base, level, cow, n - 1, used)
    else
      var k := |used| - Count(m, s[n - 1], level);
      && 0 <= k
      && ClonedFirst(m, s, d, t, base, level, cow, n - 1, used[..k])
      && Cloned(m, s[n - 1], d, t[n - 1], level, cow, used[k..])
  }

  ghost predicate AgreeOn(d: Memory, e: Memory, used: seq<nat>) {
    forall f :: f in used && f in d ==> f in e && e[f] == d[f]
  }

  /** A copied subtree stays one while its own tables stay as they are. */
  lemma {:induction false} ClonedFrame(m: Memory, w: Word, d: Memory, e: Memory, v: Word,
                                       level: nat, cow: bool, used: seq<nat>)
    requires Cloned(m, w, d, v, level, cow, used) && AgreeOn(d, e, used)
    ensures Cloned(m, w, e, v, level, cow, used)
    decreases level, 0
  {
    if level > 0 {
      assert used[0] in used;
      ClonedFirstFrame(m, m[w.frame], d, e, d[used[0]], d[used[0]], EmptyTable(), level - 1, cow, 512, used[1..]);
    }
  }

  lemma {:induction false} ClonedFirstFrame(m: Memory, s: Table, d: Memory, e: Memory, t: Table, u: Table, base: Table,
                                            level: nat, cow: bool, n: nat, used: seq<nat>)
    requires n <= 512
    requires ClonedFirst(m, s, d, t, base, level, cow, n, used) && AgreeOn(d, e, used)
    requires forall i :: 0 <= i < n ==> u[i] == t[i]
    ensures ClonedFirst(m, s, e, u, base, level, cow, n, used)
    decreases level, n + 1
  {
    if n > 0 {
      if Unused(s[n - 1]) {
        ClonedFirstFrame(m, s, d, e, t, u, base, level, cow, n - 1, used);
      } else {
        var k := |used| - Count(m, s[n - 1], level);
        ClonedFirstFrame(m, s, d, e, t, u, base, level, cow, n - 1, used[..k]);
        ClonedFrame(m, s[n - 1], d, e, t[n - 1], level, cow, used[k..]);
      }
    }
  }

  // ---- What a copy preserves ----

  /** The part of `used` that belongs to entry `i` of a copied table. */
  lemma {:induction false} ClonedFirstEntry(m: Memory, s: Table, d: Memory, t: Table, base: Table,
                                            level: nat, cow: bool, n: nat, used: seq<nat>, i: nat)
    returns (part: seq<nat>)
    requires i < n <= 512 && ClonedFirst(m, s, d, t, base, level, cow, n, used)
    ensures Unused(s[i]) ==> t[i] == base[i]
    ensures !Unused(s[i]) ==> Cloned(m, s[i], d, t[i], level, cow, part)
    ensures forall f :: f in part ==> f in used
  {
    if i < n - 1 {
      part := ClonedFirstEntry(m, s, d, t, base, level, cow, n - 1,
                               if Unused(s[n - 1]) then used else used[..|used| - Count(m, s[n - 1], level)], i);
    } else {
      part := if Unused(s[i]) then [] else used[|used| - Count(m, s[i], level)..];
    }
  }

  /** Every walk below a copied entry ends in the copy of the leaf the source walk ends in, and
      in nothing where the source walk ends in nothing. */
  lemma {:induction false} ClonedWalk(m: Memory, w: Word, d: Memory, v: Word, cow: bool, used: seq<nat>, path: seq<nat>)
    requires forall k :: 0 <= k < |path| ==> path[k] < 512
    requires !Unused(w) && WellFormed(m, w, |path|) && Cloned(m, w, d, v, |path|, cow, used)
    ensures Descend(d, v, path) == LeafCopyOf(Descend(m, w, path), cow)
    decreases |path|
  {
    if |path| == 0 {
      LeafCopyIsUsed(w, cow);
    } else {
      BitOfZero(PRESENT);
      var s, t := m[w.frame], d[used[0]];
      var part := ClonedFirstEntry(m, s, d, t, EmptyTable(), |path| - 1, cow, 512, used[1..], path[0]);
      if !Unused(s[path[0]]) {
        ClonedWalk(m, s[path[0]], d, t[path[0]], cow, part, path[1..]);
      }
    }
  }

  /** Through a copy user code can reach what it can reach through the source; a copy-on-write copy lets it write
      nothing. */
  lemma {:induction false} ClonedAllows(m: Memory, w: Word, d: Memory, v: Word, cow: bool, used: seq<nat>,
                                        path: seq<nat>, bit: nat)
    requires (forall k :: 0 <= k < |path| ==> path[k] < 512) && bit <= USER
    requires !Unused(w) && WellFormed(m, w, |path|) && Cloned(m, w, d, v, |path|, cow, used)
    ensures AllowsFrom(d, v, path, bit) <==> AllowsFrom(m, w, path, bit) && !(cow && bit == WRITABLE)
    decreases |path|
  {
    if |path| > 0 {
      BitOfZero(PRESENT);
      BitOfZero(bit);
      var s, t := m[w.frame], d[used[0]];
      var part := ClonedFirstEntry(m, s, d, t, EmptyTable(), |path| - 1, cow, 512, used[1..], path[0]);
      if !Unused(s[path[0]]) {
        ClonedAllows(m, s[path[0]], d, t[path[0]], cow, part, path[1..], bit);
      }
    }
  }

  lemma {:induction false} ClonedFetches(m: Memory, w: Word, d: Memory, v: Word, cow: bool, used: seq<nat>,
                                         path: seq<nat>)
    requires forall k :: 0 <= k < |path| ==> path[k] < 512
    requires !Unused(w) && WellFormed(m, w, |path|) && Cloned(m, w, d, v, |path|, cow, used)
    requires Descend(m, w, path).Some?
    ensures FetchesFrom(d, v, path) <==> FetchesFrom(m, w, path)
    decreases |path|
  {
    if |path| > 0 {
      BitOfZero(PRESENT);
      var s, t := m[w.frame], d[used[0]];
      var part := ClonedFirstEntry(m, s, d, t, EmptyTable(), |path| - 1, cow, 512, used[1..], path[0]);
      ClonedFetches(m, s[path[0]], d, t[path[0]], cow, part, path[1..]);
    }
  }

  /** A copy is itself well formed, so it can be copied again. */
  lemma {:induction false} ClonedWellFormed(m: Memory, w: Word, d: Memory, v: Word, level: nat, cow: bool,
                                            used: seq<nat>)
    requires WellFormed(m, w, level) && Cloned(m, w, d, v, level, cow, used)
    ensures WellFormed(d, v, level)
    decreases level
  {
    if level > 0 {
      var s, t := m[w.frame], d[used[0]];
      forall i | 0 <= i < 512 && !Unused(t[i]) ensures WellFormed(d, t[i], level - 1) {
        var part := ClonedFirstEntry(m, s, d, t, EmptyTable(), level - 1, cow, 512, used[1..], i);
        ClonedWellFormed(m, s[i], d, t[i], level - 1, cow, part);
      }
    }
  }

  /** The tables below the copy are exactly the frames taken from the allocator for it. */
  lemma {:induction false} ClonedTables(m: Memory, w: Word, d: Memory, v: Word, level: nat, cow: bool, used: seq<nat>)
    requires !Unused(w) && WellFormed(m, w, level) && Cloned(m, w, d, v, level, cow, used)
    ensures Tables(d, v, level) == Range(used)
    decreases level, 0
  {
    if level > 0 {
      BitOfZero(PRESENT);
      ClonedFirstTables(m, m[w.frame], d, d[used[0]], EmptyTable(), level - 1, cow, 512, used[1..]);
      assert used == [used[0]] + used[1..];
    }
  }

  lemma {:induction false} ClonedFirstTables(m: Memory, s: Table, d: Memory, t: Table, base: Table,
                                             level: nat, cow: bool, n: nat, used: seq<nat>)
    requires n <= 512 && ClonedFirst(m, s, d, t, base, level, cow, n, used)
    requires forall i :: 0 <= i < n ==> base[i] == ZERO
    requires forall i :: 0 <= i < n && !Unused(s[i]) ==> WellFormed(m, s[i], level)
    ensures TablesFirst(d, t, level, n) == Range(used)
    decreases level, n + 1
  {
    if n > 0 {
      if Unused(s[n - 1]) {
        ClonedFirstTables(m, s, d, t, base, level, cow, n - 1, used);
      } else {
        var k := |used| - Count(m, s[n - 1], level);
        ClonedFirstTables(m, s, d, t, base, level, cow, n - 1, used[..k]);
        ClonedTables(m, s[n - 1], d, t[n - 1], level, cow, used[k..]);
        assert used == used[..k] + used[k..];
      }
    }
  }

  /** One frame per table of the source subtree. */
  lemma {:induction false} ClonedCount(m: Memory, w: Word, d: Memory, v: Word, level: nat, cow: bool, used: seq<nat>)
    requires Cloned(m, w, d, v, level, cow, used)
    ensures |used| == Count(m, w, level)
    decreases level, 0
  {
    if level > 0 {
      ClonedFirstCount(m, m[w.frame], d, d[used[0]], EmptyTable(), level - 1, cow, 512, used[1..]);
    }
  }

  lemma {:induction false} ClonedFirstCount(m: Memory, s: Table, d: Memory, t: Table, base: Table,
                                            level: nat, cow: bool, n: nat, used: seq<nat>)
    requires n <= 512 && ClonedFirst(m, s, d, t, base, level, cow, n, used)
    ensures |used| == CountFirst(m, s, level, n)
    decreases level, n + 1
  {
    if n > 0 {
      if Unused(s[n - 1]) {
        ClonedFirstCount(m, s, d, t, base, level, cow, n - 1, used);
      } else {
        ClonedFirstCount(m, s, d, t, base, level, cow, n - 1, used[..|used| - Count(m, s[n - 1], level)]);
      }
    }
  }

  /** The copy is determined by the source and the frames handed out: two copies made into
      memories with different stale contents agree on the entry and on every word of every table. */
  lemma {:induction false} ClonedUnique(m: Memory, w: Word, d: Memory, v: Word, e: Memory, x: Word,
                                        level: nat, cow: bool, used: seq<nat>)
    requires Cloned(m, w, d, v, level, cow, used) && Cloned(m, w, e, x, level, cow, used)
    ensures v == x
    ensures forall f :: f in used ==> f in d && f in e && d[f] == e[f]
    decreases level, 0
  {
    if level > 0 {
      var t, u := d[used[0]], e[used[0]];
      ClonedFirstUnique(m, m[w.frame], d, t, e, u, EmptyTable(), level - 1, cow, 512, used[1..]);
      assert t == u;
      assert used == [used[0]] + used[1..];
    }
  }

  lemma {:induction false} ClonedFirstUnique(m: Memory, s: Table, d: Memory, t: Table, e: Memory, u: Table, base: Table,
                                             level: nat, cow: bool, n: nat, used: seq<nat>)
    requires n <= 512
    requires ClonedFirst(m, s, d, t, base, level, cow, n, used) && ClonedFirst(m, s, e, u, base, level, cow, n, used)
    ensures forall i :: 0 <= i < n ==> t[i] == u[i]
    ensures forall f :: f in used ==> f in d && f in e && d[f] == e[f]
    decreases level, n + 1
  {
    hide Cloned, Count;
    if n > 0 {
      if Unused(s[n - 1]) {
        ClonedFirstUnique(m, s, d, t, e, u, base, level, cow, n - 1, used);
      } else {
        var k := |used| - Count(m, s[n - 1], level);
        ClonedFirstUnique(m, s, d, t, e, u, base, level, cow, n - 1, used[..k]);
        ClonedUnique(m, s[n - 1], d, t[n - 1], e, u[n - 1], level, cow, used[k..]);
        assert used == used[..k] + used[k..];
      }
    }
  }

  // ---- Whole address spaces ----

  ghost predicate LowerHalfWellFormed(m: Memory, pml4: nat)
    requires pml4 in m
  {
    forall i :: 0 <= i < 256 && !Unused(m[pml4][i]) ==> WellFormed(m, m[pml4][i], 3)
  }

  /** Every lower-half address translates in the copy to the copied leaf of its source translation;
      in slots the source does not use, the destination keeps what it had. */
  lemma LowerHalfTranslation(m: Memory, src: nat, d: Memory, dst: nat, base: Table, cow: bool, used: seq<nat>, va: nat)
    requires src in m && dst in d && va < LOWER_HALF_END && LowerHalfWellFormed(m, src)
    requires ClonedFirst(m, m[src], d, d[dst], base, 3, cow, 256, used)
    ensures Translate(d, dst, va) ==
            if Unused(m[src][PathOf(va)[0]]) then Descend(d, base[PathOf(va)[0]], PathOf(va)[1..])
            else LeafCopyOf(Translate(m, src, va), cow)
  {
    hide ClonedFirst, WellFormed, Cloned, Descend, LeafCopy;
    var path := PathOf(va);
    var part := ClonedFirstEntry(m, m[src], d, d[dst], base, 3, cow, 256, used, path[0]);
    if !Unused(m[src][path[0]]) {
      ClonedWalk(m, m[src][path[0]], d, d[dst][path[0]], cow, part, path[1..]);
    }
  }

  /** Address spaces with equal upper-half entries translate every upper-half address alike, in
      whatever state the shared tables below those entries are. */
  lemma UpperHalfShared(d: Memory, p: nat, q: nat, va: nat)
    requires p in d && q in d && UPPER_HALF_START <= va < TWO_64
    requires forall i :: 256 <= i < 512 ==> d[p][i] == d[q][i]
    ensures Translate(d, p, va) == Translate(d, q, va)
  {
    var i := PathOf(va)[0];
    assert 256 <= i < 512;
  }

  /** A walk through tables outside `area` is not changed by writes inside it. */
  lemma {:induction false} WalkUnchanged(m: Memory, d: Memory, area: set<nat>, w: Word, path: seq<nat>)
    requires forall k :: 0 <= k < |path| ==> path[k] < 512
    requires SameOutside(m, d, area) && Tables(m, w, |path|) !! area
    ensures Descend(d, w, path) == Descend(m, w, path)
    decreases |path|
  {
    hide TablesFirst, NamesTable;
    if |path| > 0 && !Unused(w) && w.frame in m {
      var next := m[w.frame][path[0]];
      TablesFirstHas(m, m[w.frame], |path| - 1, 512, path[0]);
      assert w.frame !in area && Tables(m, next, |path| - 1) !! area;
      WalkUnchanged(m, d, area, next, path[1..]);
    }
  }

  lemma {:induction false} AccessUnchanged(m: Memory, d: Memory, area: set<nat>, w: Word, path: seq<nat>, bit: nat)
    requires forall k :: 0 <= k < |path| ==> path[k] < 512
    requires SameOutside(m, d, area) && Tables(m, w, |path|) !! area
    ensures AllowsFrom(d, w, path, bit) == AllowsFrom(m, w, path, bit)
    decreases |path|
  {
    hide TablesFirst;
    if |path| > 0 && NamesTable(w) && w.frame in m {
      BitOfZero(PRESENT);
      var next := m[w.frame][path[0]];
      TablesFirstHas(m, m[w.frame], |path| - 1, 512, path[0]);
      assert w.frame !in area && Tables(m, next, |path| - 1) !! area;
      AccessUnchanged(m, d, area, next, path[1..], bit);
    }
  }

  lemma {:induction false} FetchesUnchanged(m: Memory, d: Memory, area: set<nat>, w: Word, path: seq<nat>)
    requires forall k :: 0 <= k < |path| ==> path[k] < 512
    requires SameOutside(m, d, area) && Tables(m, w, |path|) !! area
    ensures FetchesFrom(d, w, path) == FetchesFrom(m, w, path)
    decreases |path|
  {
    hide TablesFirst;
    if |path| > 0 && NamesTable(w) && w.frame in m {
      BitOfZero(PRESENT);
      var next := m[w.frame][path[0]];
      TablesFirstHas(m, m[w.frame], |path| - 1, 512, path[0]);
      assert w.frame !in area && Tables(m, next, |path| - 1) !! area;
      FetchesUnchanged(m, d, area, next, path[1..]);
    }
  }

  /** Nor are its tables, their number, or its well-formedness. */
  lemma {:induction false} SubtreeUnchanged(m: Memory, d: Memory, area: set<nat>, w: Word, level: nat)
    requires SameOutside(m, d, area) && Tables(m, w, level) !! area && !Unused(w)
    ensures Tables(d, w, level) == Tables(m, w, level)
    ensures Count(d, w, level) == Count(m, w, level)
    ensures WellFormed(d, w, level) <==> WellFormed(m, w, level)
    decreases level, 0
  {
    if level > 0 && w.frame in m {
      EntriesUnchanged(m, d, area, m[w.frame], level - 1, 512);
    }
  }

  lemma {:induction false} EntriesUnchanged(m: Memory, d: Memory, area: set<nat>, t: Table, level: nat, n: nat)
    requires n <= 512 && SameOutside(m, d, area) && TablesFirst(m, t, level, n) !! area
    ensures TablesFirst(d, t, level, n) == TablesFirst(m, t, level, n)
    ensures CountFirst(d, t, level, n) == CountFirst(m, t, level, n)
    ensures forall i :: 0 <= i < n && !Unused(t[i]) ==> (WellFormed(d, t[i], level) <==> WellFormed(m, t[i], level))
    decreases level, n + 1
  {
    if n > 0 {
      EntriesUnchanged(m, d, area, t, level, n - 1);
      if !Unused(t[n - 1]) {
        SubtreeUnchanged(m, d, area, t[n - 1], level);
      }
    }
  }

  lemma LowerHalfUnchanged(m: Memory, d: Memory, area: set<nat>, pml4: nat, va: nat)
    requires pml4 in m && pml4 !in area && va < LOWER_HALF_END
    requires SameOutside(m, d, area) && TablesFirst(m, m[pml4], 3, 256) !! area
    ensures Translate(d, pml4, va) == Translate(m, pml4, va)
  {
    hide Tables, TablesFirst, Descend;
    var path := PathOf(va);
    TablesFirstHas(m, m[pml4], 3, 256, path[0]);
    WalkUnchanged(m, d, area, m[pml4][path[0]], path[1..]);
  }

  lemma LowerAccessUnchanged(m: Memory, d: Memory, area: set<nat>, pml4: nat, va: nat, bit: nat)
    requires pml4 in m && pml4 !in area && va < LOWER_HALF_END
    requires SameOutside(m, d, area) && TablesFirst(m, m[pml4], 3, 256) !! area
    ensures Allows(d, pml4, va, bit) == Allows(m, pml4, va, bit) && Fetches(d, pml4, va) == Fetches(m, pml4, va)
  {
    hide Tables, TablesFirst, AllowsFrom, FetchesFrom;
    var path := PathOf(va);
    TablesFirstHas(m, m[pml4], 3, 256, path[0]);
    AccessUnchanged(m, d, area, m[pml4][path[0]], path[1..], bit);
    FetchesUnchanged(m, d, area, m[pml4][path[0]], path[1..]);
  }

  /** The lower-half tables of a copy made into an empty lower half are exactly the frames taken
      for it, so it shares none with its source. */
  lemma NoSharedTables(m: Memory, src: nat, d: Memory, dst: nat, base: Table, cow: bool, used: seq<nat>, area: set<nat>)
    requires src in m && dst in d && LowerHalfWellFormed(m, src)
    requires ClonedFirst(m, m[src], d, d[dst], base, 3, cow, 256, used)
    requires forall i :: 0 <= i < 256 ==> base[i] == ZERO
    requires Range(used) <= area && TablesFirst(m, m[src], 3, 256) !! area
    ensures TablesFirst(d, d[dst], 3, 256) == Range(used)
    ensures TablesFirst(d, d[dst], 3, 256) !! TablesFirst(m, m[src], 3, 256)
  {
    ClonedFirstTables(m, m[src], d, d[dst], base, 3, cow, 256, used);
  }

  // ---- The copying code ----

  /** One more entry: `d` becomes `e` while entry `i` is copied with the frames `part`, or is
      marked unused; the entries copied before it keep their tables. */
  lemma ClonedFirstExtend(m: Memory, s: Table, d: Memory, e: Memory, t: Table, u: Table, base: Table,
                          level: nat, cow: bool, i: nat, used: seq<nat>, part: seq<nat>)
    requires i < 512 && ClonedFirst(m, s, d, t, base, level, cow, i, used) && AgreeOn(d, e, used)
    requires forall j :: 0 <= j < i ==> u[j] == t[j]
    requires if Unused(s[i]) then part == [] && u[i] == base[i]
             else |part| == Count(m, s[i], level) && Cloned(m, s[i], e, u[i], level, cow, part)
    ensures ClonedFirst(m, s, e, u, base, level, cow, i + 1, used + part)
  {
    ClonedFirstFrame(m, s, d, e, t, u, base, level, cow, i, used);
    assert (used + part)[..|used|] == used && (used + part)[|used|..] == part;
    assert part == [] ==> used + part == used;
  }

  /** The first `i` entries of table `s` have been copied into table `dst`, with the first `n`
      frames of `all`; memory was `d0` before and is `d` now. */
  ghost predicate EntriesCopied(m: Memory, s: Table, d0: Memory, d: Memory, dst: nat, base: Table,
                                level: nat, cow: bool, i: nat, all: seq<nat>, n: nat)
    requires i <= 512
  {
    && dst in d && n == CountFirst(m, s, level, i) <= |all|
    && SameOutside(d0, d, Range(all[..n]) + {dst})
    && (forall j :: 0 <= j < i && !Unused(s[j]) ==> WellFormed(m, s[j], level))
    && ClonedFirst(m, s, d, d[dst], base, level, cow, i, all[..n])
  }

  lemma EntriesCopiedStart(m: Memory, s: Table, d: Memory, dst: nat, base: Table, level: nat, cow: bool, all: seq<nat>)
    requires dst in d
    ensures EntriesCopied(m, s, d, d, dst, base, level, cow, 0, all, 0)
  {}

  lemma EntriesCopiedStep(m: Memory, s: Table, d0: Memory, d: Memory, e: Memory, dst: nat, base: Table,
                          level: nat, cow: bool, i: nat, all: seq<nat>, n: nat, c: nat)
    requires i < 512 && EntriesCopied(m, s, d0, d, dst, base, level, cow, i, all, n)
    requires ValidSupply(d0, all) && dst !in all && n + c <= |all|
    requires dst in e && e[dst] == d[dst][i := e[dst][i]]
    requires SameOutside(d, e, Range(all[n..][..c]) + {dst})
    requires if Unused(s[i]) then c == 0 && e[dst][i] == base[i]
             else c == Count(m, s[i], level) && WellFormed(m, s[i], level)
                  && Cloned(m, s[i], e, e[dst][i], level, cow, all[n..][..c])
    ensures EntriesCopied(m, s, d0, e, dst, base, level, cow, i + 1, all, n + c)
  {
    hide ClonedFirst, Cloned, WellFormed, Count;
    var used, part := all[..n], all[n..][..c];
    assert used + part == all[..n + c];
    assert AgreeOn(d, e, used) by {
      PartsDisjoint(d0, all, n, c);
      assert forall f :: f in used ==> f in all;
    }
    ClonedFirstExtend(m, s, d, e, d[dst], e[dst], base, level, cow, i, used, part);
    SameOutsideTransitive(d0, d, e, Range(used) + {dst}, Range(part) + {dst}, Range(used + part) + {dst});
  }

  /** Nothing is taken from the allocator for an unused source entry. */
  lemma EntriesCopiedSkip(m: Memory, s: Table, d0: Memory, d: Memory, dst: nat, base: Table,
                          level: nat, cow: bool, i: nat, all: seq<nat>, n: nat)
    requires i < 512 && EntriesCopied(m, s, d0, d, dst, base, level, cow, i, all, n)
    requires ValidSupply(d0, all) && dst !in all && Unused(s[i])
    ensures EntriesCopied(m, s, d0, d[dst := d[dst][i := base[i]]], dst, base, level, cow, i + 1, all, n)
  {
    hide ClonedFirst, Cloned, WellFormed, Count;
    EntriesCopiedStep(m, s, d0, d, d[dst := d[dst][i := base[i]]], dst, base, level, cow, i, all, n, 0);
  }

  lemma EntriesCopiedSame(m: Memory, s: Table, d0: Memory, d: Memory, dst: nat, base: Table,
                          level: nat, cow: bool, i: nat, all: seq<nat>, n: nat)
    requires i < 512 && EntriesCopied(m, s, d0, d, dst, base, level, cow, i, all, n)
    requires ValidSupply(d0, all) && dst !in all && Unused(s[i]) && d[dst][i] == base[i]
    ensures EntriesCopied(m, s, d0, d, dst, base, level, cow, i + 1, all, n)
  {
    hide ClonedFirst, Cloned, WellFormed, Count;
    EntriesCopiedSkip(m, s, d0, d, dst, base, level, cow, i, all, n);
    assert d[dst][i := base[i]] == d[dst];
    assert d[dst := d[dst]] == d;
  }

  /** A copy of a subtree in one memory is a copy of it in any memory with the same tables. */
  lemma {:induction false} ClonedSource(m: Memory, m': Memory, area: set<nat>, w: Word, d: Memory, v: Word,
                                        level: nat, cow: bool, used: seq<nat>)
    requires SameOutside(m, m', area) && Tables(m, w, level) !! area && !Unused(w)
             && Cloned(m', w, d, v, level, cow, used)
    ensures Cloned(m, w, d, v, level, cow, used)
    decreases level, 0
  {
    if level > 0 {
      ClonedFirstSource(m, m', area, m[w.frame], d, d[used[0]], EmptyTable(), level - 1, cow, 512, used[1..]);
    }
  }

  lemma {:induction false} ClonedFirstSource(m: Memory, m': Memory, area: set<nat>, s: Table, d: Memory, t: Table,
                                             base: Table, level: nat, cow: bool, n: nat, used: seq<nat>)
    requires n <= 512 && SameOutside(m, m', area) && TablesFirst(m, s, level, n) !! area
    requires ClonedFirst(m', s, d, t, base, level, cow, n, used)
    ensures ClonedFirst(m, s, d, t, base, level, cow, n, used)
    decreases level, n + 1
  {
    if n > 0 {
      if Unused(s[n - 1]) {
        ClonedFirstSource(m, m', area, s, d, t, base, level, cow, n - 1, used);
      } else {
        SubtreeUnchanged(m, m', area, s[n - 1], level);
        var k := |used| - Count(m, s[n - 1], level);
        ClonedFirstSource(m, m', area, s, d, t, base, level, cow, n - 1, used[..k]);
        ClonedSource(m, m', area, s[n - 1], d, t[n - 1], level, cow, used[k..]);
      }
    }
  }

  /** Two runs of the copy that start in memories `m` and `m'` which differ only in the frames about
      to be handed out: they take the same number of frames, and end with the same lower half and
      the same words in every new table. */
  lemma StaleContentsIrrelevant(m: Memory, d: Memory, m': Memory, e: Memory, src: nat, dst: nat, base: Table, cow: bool,
                                all: seq<nat>, n: nat, n': nat)
    requires src in m && src !in all && SameOutside(m, m', Range(all)) && TablesFirst(m, m[src], 3, 256) !! Range(all)
    requires EntriesCopied(m, m[src], m, d, dst, base, 3, cow, 256, all, n)
    requires EntriesCopied(m', m'[src], m', e, dst, base, 3, cow, 256, all, n')
    ensures n == n'
    ensures forall i :: 0 <= i < 256 ==> d[dst][i] == e[dst][i]
    ensures forall f :: f in all[..n] ==> f in d && f in e && d[f] == e[f]
  {
    hide ClonedFirst, TablesFirst, CountFirst, WellFormed;
    EntriesUnchanged(m, m', Range(all), m[src], 3, 256);
    ClonedFirstSource(m, m', Range(all), m[src], e, e[dst], base, 3, cow, 256, all[..n]);
    ClonedFirstUnique(m, m[src], d, d[dst], e, e[dst], base, 3, cow, 256, all[..n]);
  }

  lemma PartsDisjoint(d: Memory, all: seq<nat>, n: nat, c: nat)
    requires ValidSupply(d, all) && n + c <= |all|
    ensures forall f :: f in all[..n] ==> f !in all[n..][..c]
  {}

  lemma SameOutsideTransitive(d0: Memory, d: Memory, e: Memory, a: set<nat>, b: set<nat>, area: set<nat>)
    requires SameOutside(d0, d, a) && SameOutside(d, e, b) && a <= area && b <= area
    ensures SameOutside(d0, e, area)
  {}

  lemma LeafCopied(m: Memory, w: Word, d: Memory, cow: bool)
    ensures Cloned(m, w, d, LeafCopy(w, cow), 0, cow, [])
  {}

  /** A slot linked to a new table whose entries have all been copied is a copied entry. */
  lemma EntryCopied(m: Memory, w: Word, d0: Memory, e: Memory, dst: nat, index: nat,
                    level: nat, cow: bool, newFrame: nat, rest: seq<nat>)
    requires index < 512 && level > 0 && dst in d0 && w.frame in m
    requires ValidSupply(d0, [newFrame] + rest) && dst !in [newFrame] + rest && newFrame < TWO_40
    requires EntriesCopied(m, m[w.frame], d0[dst := d0[dst][index := Word(w.lo, newFrame, w.hi)]], e,
                           newFrame, EmptyTable(), level - 1, cow, 512, rest, CountFirst(m, m[w.frame], level - 1, 512))
    ensures var n := Count(m, w, level);
            var all := [newFrame] + rest;
            && n <= |all| && all[n..] == rest[n - 1..] && dst in e
            && SameOutside(d0, e, Range(all[..n]) + {dst})
            && e[dst] == d0[dst][index := e[dst][index]]
            && Cloned(m, w, e, e[dst][index], level, cow, all[..n])
  {
    hide ClonedFirst, CountFirst, WellFormed, ValidSupply, Range;
    var n := Count(m, w, level);
    var all := [newFrame] + rest;
    var linked := d0[dst := d0[dst][index := Word(w.lo, newFrame, w.hi)]];
    TakenFirst(newFrame, rest, n, dst);
    assert e[dst] == linked[dst];
    SameOutsideTransitive(d0, linked, e, {dst}, Range(rest[..n - 1]) + {newFrame}, Range(all[..n]) + {dst});
  }

  /** The first `n` frames of a supply, seen from its first frame. */
  lemma TakenFirst(newFrame: nat, rest: seq<nat>, n: nat, dst: nat)
    requires 1 <= n <= |rest| + 1 && dst !in [newFrame] + rest
    ensures var all := [newFrame] + rest;
            && all[..n] == [newFrame] + rest[..n - 1] && all[..n][1..] == rest[..n - 1] && all[n..] == rest[n - 1..]
            && Range(all[..n]) == Range(rest[..n - 1]) + {newFrame} && dst !in Range(all[..n])
  {
    var all := [newFrame] + rest;
    assert all[..n] == [newFrame] + rest[..n - 1];
    assert all[..n][1..] == rest[..n - 1];
    forall f | f in all[..n] ensures f in all && (f == newFrame || f in rest[..n - 1]) {}
  }

  /** What a copy into `dst` may assume: `m` is memory when the copy of the address space began and
      `d` is memory now, `area` holds every frame the whole copy may write, and the source lies
      outside it. */
  ghost predicate Copying(m: Memory, d: Memory, supply: seq<nat>, src: nat, dst: nat, area: set<nat>) {
    && SameOutside(m, d, area) && ValidSupply(d, supply) && Range(supply) <= area
    && src in m && src !in area && dst in d && dst in area && dst !in supply
  }

  lemma CopyingStep(m: Memory, d: Memory, e: Memory, supply: seq<nat>, n: nat, src: nat, dst: nat, area: set<nat>)
    requires Copying(m, d, supply, src, dst, area) && n <= |supply|
    requires SameOutside(d, e, Range(supply[..n]) + {dst})
    ensures Copying(m, e, supply[n..], src, dst, area)
    ensures e[src] == m[src] && e.Keys == m.Keys && ValidSupply(d, supply)
  {
    SameOutsideTransitive(m, d, e, area, Range(supply[..n]) + {dst}, area);
  }

  /** After the slot has been linked to the first frame of the supply, that frame can be copied into. */
  lemma LinkedCopying(m: Memory, d: Memory, supply: seq<nat>, w: Word, src: nat, dst: nat, index: nat, area: set<nat>)
    requires Copying(m, d, supply, src, dst, area) && supply != [] && index < 512
    ensures supply[0] < TWO_40 && dst !in [supply[0]] + supply[1..] && ValidSupply(d, [supply[0]] + supply[1..])
    ensures var e := d[dst := d[dst][index := Word(w.lo, supply[0], w.hi)]];
            && e.Keys == m.Keys
            && (w.frame in m && w.frame !in area ==> Copying(m, e, supply[1..], w.frame, supply[0], area))
  {
    assert supply == [supply[0]] + supply[1..];
    assert supply[0] in supply;
    assert forall f :: f in supply[1..] ==> f in supply;
  }

  /** An address space with root `p` was made from frames of the supply: its upper half is `upper`, and
      its lower half is well formed with tables of its own. */
  ghost predicate SpaceMade(m: Memory, supply: seq<nat>, upper: Table, e: Memory, supply': seq<nat>, p: nat) {
    && Spent(m, supply, e, supply') && p in supply && p !in supply' && p in e
    && (forall i :: 256 <= i < 512 ==> e[p][i] == upper[i])
    && LowerHalfWellFormed(e, p)
    && TablesFirst(e, e[p], 3, 256) <= Range(supply) && TablesFirst(e, e[p], 3, 256) !! Range(supply')
  }

  lemma {:induction false} NoTables(m: Memory, t: Table, level: nat, n: nat)
    requires n <= 512 && forall i :: 0 <= i < n ==> t[i] == ZERO
    ensures TablesFirst(m, t, level, n) == {}
  {
    if n > 0 {
      NoTables(m, t, level, n - 1);
    }
  }

  lemma RestOfSupply(m: Memory, supply: seq<nat>, n: nat)
    requires ValidSupply(m, supply) && n <= |supply|
    ensures forall f :: f in supply[n..] ==> f in supply
    ensures forall f :: f in supply[..n] ==> f in supply && f !in supply[n..]
  {
    forall f | f in supply[..n] ensures f in supply && f !in supply[n..] {
      var i :| 0 <= i < n && supply[i] == f;
      assert forall j :: n <= j < |supply| ==> supply[j] != supply[i];
    }
  }

  lemma Pml4Made(m: Memory, supply: seq<nat>, upper: Table, e: Memory)
    requires ValidSupply(m, supply) && supply != [] && SameOutside(m, e, {supply[0]}) && supply[0] in e
    requires forall i :: 0 <= i < 256 ==> e[supply[0]][i] == ZERO
    requires forall i :: 256 <= i < 512 ==> e[supply[0]][i] == upper[i]
    ensures SpaceMade(m, supply, upper, e, supply[1..], supply[0])
  {
    hide TablesFirst, WellFormed;
    RestOfSupply(m, supply, 1);
    assert supply[0] in supply[..1];
    NoTables(e, e[supply[0]], 3, 256);
  }

  /** What `fork` promises: every lower-half address of the child translates to the parent's frame,
      read-only and marked copy-on-write; the parent's lower half translates as before; the upper
      half is shared, entry by entry; and no lower-half table is. */
  ghost predicate ForkedFrom(m: Memory, parent: nat, d: Memory, child: nat) {
    && parent in m && parent in d && child in d
    && (forall va :: 0 <= va < LOWER_HALF_END ==> Translate(d, child, va) == LeafCopyOf(Translate(m, parent, va), true))
    && (forall va :: 0 <= va < LOWER_HALF_END ==> Translate(d, parent, va) == Translate(m, parent, va))
    && (forall va :: UPPER_HALF_START <= va < TWO_64 ==> Translate(d, child, va) == Translate(d, parent, va))
    && (forall i :: 256 <= i < 512 ==> d[child][i] == m[parent][i])
    && TablesFirst(d, d[child], 3, 256) !! TablesFirst(d, d[parent], 3, 256)
    && LowerHalfWellFormed(d, child)
    && AccessCopied(m, parent, d, child)
  }

  /** User code reaches and executes the same pages of the lower half in the child as in the parent, and can write none
      of them. */
  ghost predicate AccessCopied(m: Memory, parent: nat, d: Memory, child: nat) {
    && (forall va, bit :: 0 <= va < LOWER_HALF_END && 0 <= bit <= USER ==>
          (Allows(d, child, va, bit) <==> Allows(m, parent, va, bit) && bit != WRITABLE))
    && (forall va :: 0 <= va < LOWER_HALF_END && Translate(m, parent, va).Some? ==>
          (Fetches(d, child, va) <==> Fetches(m, parent, va)))
  }

  lemma ForkStart(m0: Memory, m1: Memory, parent: nat, c: nat, rest: seq<nat>)
    requires ValidSupply(m0, [c] + rest) && parent in m0 && parent !in [c] + rest && c in m1
    requires SameOutside(m0, m1, {c}) && TablesFirst(m0, m0[parent], 3, 256) !! Range([c] + rest)
    ensures Copying(m1, m1, rest, parent, c, Range(rest) + {c})
    ensures m1[parent] == m0[parent] && TablesFirst(m1, m1[parent], 3, 256) !! Range(rest) + {c}
    ensures CountFirst(m1, m1[parent], 3, 256) == CountFirst(m0, m0[parent], 3, 256)
    ensures LowerHalfWellFormed(m1, parent) <==> LowerHalfWellFormed(m0, parent)
  {
    hide TablesFirst, CountFirst, WellFormed;
    var all := [c] + rest;
    assert Range(all) == Range(rest) + {c};
    assert all[0] in all && forall i :: 0 <= i < |rest| ==> all[i + 1] == rest[i];
    EntriesUnchanged(m0, m1, {c}, m0[parent], 3, 256);
  }

  lemma ForkDone(m0: Memory, m1: Memory, d: Memory, parent: nat, c: nat, rest: seq<nat>)
    requires ValidSupply(m0, [c] + rest) && parent in m0 && parent !in [c] + rest && c in m1
    requires SameOutside(m0, m1, {c}) && TablesFirst(m0, m0[parent], 3, 256) !! Range([c] + rest)
    requires forall i :: 0 <= i < 256 ==> m1[c][i] == ZERO
    requires LowerHalfWellFormed(m0, parent) && parent in m1
    requires EntriesCopied(m1, m1[parent], m1, d, c, m1[c], 3, true, 256, rest, CountFirst(m1, m1[parent], 3, 256))
    requires forall i :: 256 <= i < 512 ==> d[c][i] == m1[parent][i]
    ensures var n := 1 + CountFirst(m0, m0[parent], 3, 256);
            && n <= 1 + |rest| && SameOutside(m0, d, Range(([c] + rest)[..n]))
            && TablesFirst(d, d[c], 3, 256) <= Range(([c] + rest)[..n])
    ensures ForkedFrom(m0, parent, d, c)
  {
    hide ClonedFirst, TablesFirst, CountFirst, Descend, WellFormed, AccessCopied;
    ForkStart(m0, m1, parent, c, rest);
    var n := CountFirst(m0, m0[parent], 3, 256);
    var used, area := rest[..n], Range(rest) + {c};
    assert ([c] + rest)[..n + 1] == [c] + used;
    SameOutsideTransitive(m0, m1, d, {c}, Range(used) + {c}, Range([c] + used));
    SameOutsideTransitive(m0, m1, d, {c}, Range(used) + {c}, area);
    assert Range([c] + rest) == area;
    forall va | 0 <= va < LOWER_HALF_END
      ensures Translate(d, c, va) == LeafCopyOf(Translate(m0, parent, va), true)
      ensures Translate(d, parent, va) == Translate(m0, parent, va)
    {
      LowerHalfUnchanged(m0, m1, area, parent, va);
      LowerHalfUnchanged(m0, d, area, parent, va);
      ForkLeaf(m1, parent, d, c, m1[c], used, va);
    }
    forall va | UPPER_HALF_START <= va < TWO_64 ensures Translate(d, c, va) == Translate(d, parent, va) {
      UpperHalfShared(d, c, parent, va);
    }
    ForkAccessCopied(m0, m1, d, parent, c, used, area);
    NoSharedTables(m1, parent, d, c, m1[c], true, used, area);
    EntriesUnchanged(m1, d, area, m1[parent], 3, 256);
    CopyWellFormed(m1, parent, d, c, m1[c], used);
  }

  lemma ForkAccessCopied(m0: Memory, m1: Memory, d: Memory, parent: nat, c: nat, used: seq<nat>, area: set<nat>)
    requires parent in m0 && parent in m1 && parent !in area && c in m1 && c in d
    requires SameOutside(m0, m1, area) && TablesFirst(m0, m0[parent], 3, 256) !! area
    requires LowerHalfWellFormed(m1, parent) && forall i :: 0 <= i < 256 ==> m1[c][i] == ZERO
    requires ClonedFirst(m1, m1[parent], d, d[c], m1[c], 3, true, 256, used)
    ensures AccessCopied(m0, parent, d, c)
  {
    hide ClonedFirst, TablesFirst, LowerHalfWellFormed, Translate, Allows, Fetches, SameOutside;
    forall va, bit | 0 <= va < LOWER_HALF_END && 0 <= bit <= USER
      ensures Allows(d, c, va, bit) <==> Allows(m0, parent, va, bit) && bit != WRITABLE
    {
      LowerAccessUnchanged(m0, m1, area, parent, va, bit);
      ForkAccess(m1, parent, d, c, m1[c], used, va, bit);
    }
    forall va | 0 <= va < LOWER_HALF_END && Translate(m0, parent, va).Some?
      ensures Fetches(d, c, va) <==> Fetches(m0, parent, va)
    {
      LowerHalfUnchanged(m0, m1, area, parent, va);
      LowerAccessUnchanged(m0, m1, area, parent, va, 0);
      ForkAccess(m1, parent, d, c, m1[c], used, va, 0);
    }
  }

  lemma CopyWellFormed(m: Memory, src: nat, d: Memory, dst: nat, base: Table, used: seq<nat>)
    requires src in m && dst in d && LowerHalfWellFormed(m, src)
    requires ClonedFirst(m, m[src], d, d[dst], base, 3, true, 256, used)
    requires forall i :: 0 <= i < 256 ==> base[i] == ZERO
    ensures LowerHalfWellFormed(d, dst)
  {
    forall i | 0 <= i < 256 && !Unused(d[dst][i]) ensures WellFormed(d, d[dst][i], 3) {
      var part := ClonedFirstEntry(m, m[src], d, d[dst], base, 3, true, 256, used, i);
      ClonedWellFormed(m, m[src][i], d, d[dst][i], 3, true, part);
    }
  }

  lemma ForkLeaf(m: Memory, src: nat, d: Memory, dst: nat, base: Table, used: seq<nat>, va: nat)
    requires src in m && dst in d && va < LOWER_HALF_END && LowerHalfWellFormed(m, src)
    requires ClonedFirst(m, m[src], d, d[dst], base, 3, true, 256, used)
    requires forall i :: 0 <= i < 256 ==> base[i] == ZERO
    ensures Translate(d, dst, va) == LeafCopyOf(Translate(m, src, va), true)
  {
    hide ClonedFirst, WellFormed, LowerHalfWellFormed, PathOf, LeafCopy;
    LowerHalfTranslation(m, src, d, dst, base, true, used, va);
    assert PathOf(va)[0] < 256 by { LowerIndex(va); }
  }

  lemma ForkAccess(m: Memory, src: nat, d: Memory, dst: nat, base: Table, used: seq<nat>, va: nat, bit: nat)
    requires src in m && dst in d && va < LOWER_HALF_END && LowerHalfWellFormed(m, src) && bit <= USER
    requires ClonedFirst(m, m[src], d, d[dst], base, 3, true, 256, used)
    requires forall i :: 0 <= i < 256 ==> base[i] == ZERO
    ensures Allows(d, dst, va, bit) <==> Allows(m, src, va, bit) && bit != WRITABLE
    ensures Translate(m, src, va).Some? ==> (Fetches(d, dst, va) <==> Fetches(m, src, va))
  {
    hide ClonedFirst, WellFormed, PathOf, Cloned;
    var path := PathOf(va);
    LowerIndex(va);
    BitOfZero(bit);
    var part := ClonedFirstEntry(m, m[src], d, d[dst], base, 3, true, 256, used, path[0]);
    if !Unused(m[src][path[0]]) {
      ClonedAllows(m, m[src][path[0]], d, d[dst][path[0]], true, part, path[1..], bit);
      if Translate(m, src, va).Some? {
        ClonedFetches(m, m[src][path[0]], d, d[dst][path[0]], true, part, path[1..]);
      }
    }
  }

  lemma LowerIndex(va: nat)
    requires va < LOWER_HALF_END
    ensures PathOf(va)[0] < 256
  {}

  lemma ForkMade(m: Memory, all: seq<nat>, d: Memory, rest: seq<nat>, parent: nat, c: nat, n: nat)
    requires ValidSupply(m, all) && 0 < n <= |all| && c == all[0] && rest == all[n..]
    requires parent in m && c in d && LowerHalfWellFormed(d, c)
             && forall i :: 256 <= i < 512 ==> d[c][i] == m[parent][i]
    requires SameOutside(m, d, Range(all[..n])) && TablesFirst(d, d[c], 3, 256) <= Range(all[..n])
    ensures SpaceMade(m, all, m[parent], d, rest, c)
  {
    hide TablesFirst, LowerHalfWellFormed, ValidSupply;
    RestOfSupply(m, all, n);
    SupplyAfter(m, all, d, n);
    assert c in all[..n];
  }

  lemma SupplyAfter(m: Memory, all: seq<nat>, d: Memory, n: nat)
    requires ValidSupply(m, all) && d.Keys == m.Keys && n <= |all|
    ensures ValidSupply(d, all[n..])
  {}

  class PhysicalMemory {
    var mem: Memory
    var supply: seq<nat>

    constructor (m: Memory, frames: seq<nat>)
      ensures mem == m && supply == frames
    {
      mem, supply := m, frames;
    }

    /** Copies the used source entry `src[srcIndex]` into the slot `dst[dstIndex]`. `ok` is false
        when the kernel panics: the allocator is empty, or a source entry names no table. */
    method CloneTableLevel(src: nat, srcIndex: nat, dst: nat, dstIndex: nat, level: nat, cow: bool,
                           ghost m: Memory, ghost area: set<nat>)
      returns (ok: bool)
      requires srcIndex < 512 && dstIndex < 512 && Copying(m, mem, supply, src, dst, area)
      requires !Unused(m[src][srcIndex]) && Tables(m, m[src][srcIndex], level) !! area
      modifies this
      ensures ok <==> WellFormed(m, m[src][srcIndex], level) && Count(m, m[src][srcIndex], level) <= |old(supply)|
      ensures ok ==>
                var n := Count(m, m[src][srcIndex], level);
                && supply == old(supply)[n..] && dst in mem
                && SameOutside(old(mem), mem, Range(old(supply)[..n]) + {dst})
                && mem[dst] == old(mem[dst])[dstIndex := mem[dst][dstIndex]]
                && Cloned(m, m[src][srcIndex], mem, mem[dst][dstIndex], level, cow, old(supply)[..n])
      decreases level, 0
    {
      hide ClonedFirst, Cloned, TablesFirst, CountFirst, ValidSupply;
      var entry := mem[src][srcIndex];
      if level == 0 {
        mem := mem[dst := mem[dst][dstIndex := LeafCopy(entry, cow)]];
        LeafCopied(m, entry, mem, cow);
        return true;
      }
      if supply == [] {
        return false;
      }
      LinkedCopying(m, mem, supply, entry, src, dst, dstIndex, area);
      var newFrame := supply[0];
      supply := supply[1..];
      mem := mem[dst := mem[dst][dstIndex := Word(entry.lo, newFrame, entry.hi)]];
      if !NamesTable(entry) || entry.frame !in mem {
        return false;
      }
      ghost var rest := supply;
      assert old(supply) == [newFrame] + rest;
      ok := CloneEntries(entry.frame, newFrame, level - 1, cow, m, area);
      if ok {
        EntryCopied(m, entry, old(mem), mem, dst, dstIndex, level, cow, newFrame, rest);
      }
    }

    /** Copies all 512 entries of table `src` into table `dst`. */
    method CloneEntries(src: nat, dst: nat, level: nat, cow: bool, ghost m: Memory, ghost area: set<nat>)
      returns (ok: bool)
      requires Copying(m, mem, supply, src, dst, area) && TablesFirst(m, m[src], level, 512) !! area
      modifies this
      ensures ok <==>
              && (forall i :: 0 <= i < 512 && !Unused(m[src][i]) ==> WellFormed(m, m[src][i], level))
              && CountFirst(m, m[src], level, 512) <= |old(supply)|
      ensures ok ==>
                var n := CountFirst(m, m[src], level, 512);
                && supply == old(supply)[n..]
                && EntriesCopied(m, m[src], old(mem), mem, dst, EmptyTable(), level, cow, 512, old(supply), n)
      decreases level, 1
    {
      hide ClonedFirst, Cloned, Tables, WellFormed, Count, SameOutside, ValidSupply;
      ghost var s, all := m[src], supply;
      ghost var n: nat := 0;
      EntriesCopiedStart(m, s, mem, dst, EmptyTable(), level, cow, all);
      var i := 0;
      while i < 512
        invariant i <= 512 && n <= |all| && supply == all[n..]
        invariant EntriesCopied(m, s, old(mem), mem, dst, EmptyTable(), level, cow, i, all, n)
      {
        CopyingStep(m, old(mem), mem, all, n, src, dst, area);
        TablesFirstHas(m, s, level, 512, i);
        CountFirstGrows(m, s, level, i + 1, 512);
        if !Unused(mem[src][i]) {
          ghost var d, c := mem, Count(m, s[i], level);
          var done := CloneTableLevel(src, i, dst, i, level, cow, m, area);
          if !done {
            return false;
          }
          EntriesCopiedStep(m, s, old(mem), d, mem, dst, EmptyTable(), level, cow, i, all, n, c);
          n := n + c;
        } else {
          EntriesCopiedSkip(m, s, old(mem), mem, dst, EmptyTable(), level, cow, i, all, n);
          mem := mem[dst := mem[dst][i := ZERO]];
        }
        i := i + 1;
      }
      return true;
    }

    /** A new PML4 with the upper half of the running one (`cr3`) and an empty lower half. */
    method CreateProcessPml4(cr3: nat) returns (pml4: Option<nat>)
      requires ValidSupply(mem, supply) && cr3 in mem && cr3 !in supply
      modifies this
      ensures pml4.None? <==> old(supply) == []
      ensures pml4.None? ==> mem == old(mem) && supply == []
      ensures pml4.Some? ==>
                && pml4.value == old(supply)[0] && supply == old(supply)[1..]
                && SameOutside(old(mem), mem, {pml4.value}) && pml4.value in mem
                && (forall i :: 0 <= i < 256 ==> mem[pml4.value][i] == ZERO)
                && (forall i :: 256 <= i < 512 ==> mem[pml4.value][i] == old(mem)[cr3][i])
                && SpaceMade(old(mem), old(supply), old(mem)[cr3], mem, supply, pml4.value)
    {
      hide SpaceMade;
      if supply == [] {
        return None;
      }
      var p := supply[0];
      supply := supply[1..];
      mem := mem[p := EmptyTable()];
      var i := 256;
      while i < 512
        invariant 256 <= i <= 512
        invariant SameOutside(old(mem), mem, {p}) && p in mem && supply == old(supply)[1..]
        invariant forall j :: 0 <= j < 512 ==> mem[p][j] == if 256 <= j < i then old(mem)[cr3][j] else ZERO
      {
        mem := mem[p := mem[p][i := mem[cr3][i]]];
        i := i + 1;
      }
      Pml4Made(old(mem), old(supply), old(mem)[cr3], mem);
      return Some(p);
    }

    /** Copies the lower half of the address space of `src` into that of `dst`. */
    method CloneUserMappings(src: nat, dst: nat, cow: bool) returns (ok: bool)
      requires Copying(mem, mem, supply, src, dst, Range(supply) + {dst})
      requires TablesFirst(mem, mem[src], 3, 256) !! Range(supply) + {dst}
      modifies this
      ensures ok <==> LowerHalfWellFormed(old(mem), src) && CountFirst(old(mem), old(mem)[src], 3, 256) <= |old(supply)|
      ensures ok ==>
                var n := CountFirst(old(mem), old(mem)[src], 3, 256);
                && supply == old(supply)[n..]
                && EntriesCopied(old(mem), old(mem)[src], old(mem), mem, dst, old(mem)[dst], 3, cow, 256, old(supply),
                                 n)
                && (forall i :: 256 <= i < 512 ==> mem[dst][i] == old(mem)[dst][i])
    {
      hide ClonedFirst, Cloned, Tables, WellFormed, Count, SameOutside, ValidSupply, TablesFirst, CountFirst;
      ghost var m, s, base, all, area := mem, mem[src], mem[dst], supply, Range(supply) + {dst};
      ghost var n: nat := 0;
      EntriesCopiedStart(m, s, mem, dst, base, 3, cow, all);
      var i := 0;
      while i < 256
        invariant i <= 256 && n <= |all| && supply == all[n..]
        invariant EntriesCopied(m, s, m, mem, dst, base, 3, cow, i, all, n)
        invariant forall j :: i <= j < 512 ==> mem[dst][j] == base[j]
      {
        CopyingStep(m, m, mem, all, n, src, dst, area);
        TablesFirstHas(m, s, 3, 256, i);
        CountFirstHas(m, s, 3, i, 256);
        if !Unused(mem[src][i]) {
          ghost var d, c := mem, Count(m, s[i], 3);
          var done := CloneTableLevel(src, i, dst, i, 3, cow, m, area);
          if !done {
            return false;
          }
          EntriesCopiedStep(m, s, m, d, mem, dst, base, 3, cow, i, all, n, c);
          n := n + c;
        } else {
          EntriesCopiedSame(m, s, m, mem, dst, base, 3, cow, i, all, n);
        }
        i := i + 1;
      }
      return true;
    }

    /** As `CloneUserMappings` with copy-on-write, then the upper half entry by entry. */
    method CloneUserMappingsCow(src: nat, dst: nat) returns (ok: bool)
      requires Copying(mem, mem, supply, src, dst, Range(supply) + {dst})
      requires TablesFirst(mem, mem[src], 3, 256) !! Range(supply) + {dst}
      modifies this
      ensures ok <==> LowerHalfWellFormed(old(mem), src) && CountFirst(old(mem), old(mem)[src], 3, 256) <= |old(supply)|
      ensures ok ==>
                var n := CountFirst(old(mem), old(mem)[src], 3, 256);
                && supply == old(supply)[n..]
                && EntriesCopied(old(mem), old(mem)[src], old(mem), mem, dst, old(mem)[dst], 3, true, 256,
                                 old(supply), n)
                && (forall i :: 256 <= i < 512 ==> mem[dst][i] == old(mem)[src][i])
    {
      hide ClonedFirst, TablesFirst, LowerHalfWellFormed, CountFirst;
      ok := CloneUserMappings(src, dst, true);
      if !ok {
        return;
      }
      ghost var m, d, used := old(mem), mem, old(supply)[..CountFirst(old(mem), old(mem)[src], 3, 256)];
      var i := 256;
      while i < 512
        invariant 256 <= i <= 512 && SameOutside(d, mem, {dst}) && supply == old(supply)[|used|..]
        invariant forall j :: 0 <= j < 256 ==> mem[dst][j] == d[dst][j]
        invariant forall j :: 256 <= j < i ==> mem[dst][j] == m[src][j]
      {
        mem := mem[dst := mem[dst][i := mem[src][i]]];
        i := i + 1;
      }
      ClonedFirstFrame(m, m[src], d, mem, d[dst], mem[dst], m[dst], 3, true, 256, used);
    }

    /** `Process::fork`: a new address space whose lower half is a copy-on-write copy of the
        parent's. `None` when the kernel panics. */
    method Fork(parent: nat, cr3: nat) returns (child: Option<nat>)
      requires ValidSupply(mem, supply) && cr3 in mem && cr3 !in supply && parent in mem && parent !in supply
      requires TablesFirst(mem, mem[parent], 3, 256) !! Range(supply)
      modifies this
      ensures child.Some? <==>
              && LowerHalfWellFormed(old(mem), parent)
              && 1 + CountFirst(old(mem), old(mem)[parent], 3, 256) <= |old(supply)|
      ensures child.Some? ==>
                var n := 1 + CountFirst(old(mem), old(mem)[parent], 3, 256);
                && supply == old(supply)[n..] && child.value == old(supply)[0] && child.value in mem
                && SameOutside(old(mem), mem, Range(old(supply)[..n]))
                && ForkedFrom(old(mem), parent, mem, child.value)
                && SpaceMade(old(mem), old(supply), old(mem)[parent], mem, supply, child.value)
    {
      hide ClonedFirst, TablesFirst, LowerHalfWellFormed, CountFirst, SpaceMade;
      ghost var m0, all := mem, supply;
      child := CreateProcessPml4(cr3);
      if child.None? {
        return;
      }
      var c := child.value;
      ghost var m1, rest := mem, supply;
      assert all == [c] + rest;
      ForkStart(m0, m1, parent, c, rest);
      var ok := CloneUserMappingsCow(parent, c);
      if !ok {
        return None;
      }
      ForkDone(m0, m1, mem, parent, c, rest);
      ForkMade(m0, all, mem, supply, parent, c, 1 + CountFirst(m0, m0[parent], 3, 256));
    }
  }
}
