/** Mapping pages into the address space of one PML4 (the `x86_64` crate's `OffsetPageTable`). */
module AddressSpaces {
  import opened Words
  import opened PageTables
  import opened CloneTables

  /** For every table and page reached from a PML4, the indices that lead to it. */
  type Owner = map<nat, seq<nat>>

  ghost predicate ValidPath(path: seq<nat>) {
    forall k :: 0 <= k < |path| ==> path[k] < 512
  }

  /** The entry at index `i` of the table at path `p` belongs to the slots `lo..hi` of the PML4. */
  predicate Managed(p: seq<nat>, i: nat, lo: nat, hi: nat) {
    p == [] ==> lo <= i < hi
  }

  ghost predicate LeadsTo(owner: Owner, p: seq<nat>, i: nat, w: Word) {
    w.frame in owner && owner[w.frame] == p + [i] && (|p| < 3 ==> NamesTable(w))
  }

  /** The slots `lo..hi` of `pml4` form a proper tree: each table and each mapped page has its own
      frame, recorded in `owner` with the path that leads to it. */
  ghost predicate Owned(m: Memory, owner: Owner, pml4: nat, lo: nat, hi: nat) {
    && pml4 in owner && owner[pml4] == [] && lo <= hi <= 512
    && (forall f :: f in owner ==>
          f in m && |owner[f]| <= 4
          && if owner[f] == [] then f == pml4 else lo <= owner[f][0] < hi)
    && (forall f, i :: f in owner && |owner[f]| <= 3 && 0 <= i < 512 && Managed(owner[f], i, lo, hi) && !Unused(m[f][i])
          ==> LeadsTo(owner, owner[f], i, m[f][i]))
  }

  /** `m` with one entry replaced. */
  function WriteEntry(m: Memory, table: nat, i: nat, w: Word): Memory
    requires table in m && i < 512
  {
    m[table := m[table][i := w]]
  }

  /** Replacing the flags of an entry above the last level leaves the tree in place. */
  lemma SetFlagsOwned(m: Memory, owner: Owner, pml4: nat, lo: nat, hi: nat, table: nat, i: nat, w: Word)
    requires Owned(m, owner, pml4, lo, hi) && table in owner && i < 512
    requires w.frame == m[table][i].frame && NamesTable(w) && !Unused(m[table][i])
    ensures Owned(WriteEntry(m, table, i, w), owner, pml4, lo, hi)
  {}

  /** Linking an unused entry to a new, empty table adds that table to the tree. */
  lemma LinkTableOwned(m: Memory, owner: Owner, pml4: nat, lo: nat, hi: nat, table: nat, i: nat, w: Word)
    requires Owned(m, owner, pml4, lo, hi) && table in owner && |owner[table]| <= 2 && i < 512
    requires NamesTable(w) && w.frame in m && w.frame !in owner && Managed(owner[table], i, lo, hi)
    ensures Owned(WriteEntry(m, table, i, w)[w.frame := EmptyTable()], owner[w.frame := owner[table] + [i]], pml4, lo,
                  hi)
  {}

  /** Linking an unused last-level entry to a page adds that page to the tree. */
  lemma LinkPageOwned(m: Memory, owner: Owner, pml4: nat, lo: nat, hi: nat, table: nat, i: nat, w: Word)
    requires Owned(m, owner, pml4, lo, hi) && table in owner && |owner[table]| == 3 && i < 512
    requires w.frame in m && w.frame !in owner
    ensures Owned(WriteEntry(m, table, i, w), owner[w.frame := owner[table] + [i]], pml4, lo, hi)
  {}

  /** A walk of the managed slots, from any table of the tree to the last level. */
  ghost predicate WalkFrom(owner: Owner, table: nat, path: seq<nat>, lo: nat, hi: nat) {
    && table in owner && |path| > 0 && |owner[table]| + |path| == 4 && ValidPath(path)
    && Managed(owner[table], path[0], lo, hi)
  }

  lemma {:induction false} SetFlagsWalk(m: Memory, owner: Owner, pml4: nat, lo: nat, hi: nat,
                                        table: nat, i: nat, w: Word, g: nat, path: seq<nat>)
    requires Owned(m, owner, pml4, lo, hi) && table in owner && |owner[table]| <= 2 && i < 512
    requires w.frame == m[table][i].frame && NamesTable(w) && NamesTable(m[table][i])
    requires WalkFrom(owner, g, path, lo, hi)
    ensures WalkTable(WriteEntry(m, table, i, w), g, path) == WalkTable(m, g, path)
    decreases |path|
  {
    var e := WriteEntry(m, table, i, w);
    BitOfZero(PRESENT);
    var v := m[g][path[0]];
    if !Unused(v) && |path| > 1 {
      assert LeadsTo(owner, owner[g], path[0], v);
      SetFlagsWalk(m, owner, pml4, lo, hi, table, i, w, v.frame, path[1..]);
    }
  }

  lemma {:induction false} LinkTableWalk(m: Memory, owner: Owner, pml4: nat, lo: nat, hi: nat,
                                         table: nat, i: nat, w: Word, g: nat, path: seq<nat>)
    requires Owned(m, owner, pml4, lo, hi) && table in owner && |owner[table]| <= 2 && i < 512
    requires w.frame in m && w.frame !in owner && Unused(m[table][i])
    requires WalkFrom(owner, g, path, lo, hi)
    ensures WalkTable(WriteEntry(m, table, i, w)[w.frame := EmptyTable()], g, path) == WalkTable(m, g, path)
    decreases |path|
  {
    var e := WriteEntry(m, table, i, w)[w.frame := EmptyTable()];
    var v := m[g][path[0]];
    if g == table && path[0] == i {
      var rest := path[1..];
      assert Descend(e, e[w.frame][rest[0]], rest[1..]) == None;
    } else if !Unused(v) && |path| > 1 {
      assert LeadsTo(owner, owner[g], path[0], v);
      LinkTableWalk(m, owner, pml4, lo, hi, table, i, w, v.frame, path[1..]);
    }
  }

  /** A new page appears at its own path and nowhere else. */
  lemma {:induction false} LinkPageWalk(m: Memory, owner: Owner, pml4: nat, lo: nat, hi: nat,
                                        table: nat, i: nat, w: Word, g: nat, path: seq<nat>)
    requires Owned(m, owner, pml4, lo, hi) && table in owner && |owner[table]| == 3 && i < 512
    requires WalkFrom(owner, g, path, lo, hi) && owner[g] + path != owner[table] + [i]
    ensures WalkTable(WriteEntry(m, table, i, w), g, path) == WalkTable(m, g, path)
    decreases |path|
  {
    var v := m[g][path[0]];
    if g == table {
      assert path == [path[0]];
    } else if !Unused(v) && |path| > 1 {
      assert LeadsTo(owner, owner[g], path[0], v);
      assert owner[g] + path == owner[v.frame] + path[1..];
      LinkPageWalk(m, owner, pml4, lo, hi, table, i, w, v.frame, path[1..]);
    }
  }

  /** A walk ends in a page whose recorded path is the path walked, so distinct pages have
      distinct frames, and none of them is a table. */
  lemma {:induction false} WalkEndsAtOwner(m: Memory, owner: Owner, pml4: nat, lo: nat, hi: nat, g: nat, path: seq<nat>)
    requires Owned(m, owner, pml4, lo, hi) && WalkFrom(owner, g, path, lo, hi)
    requires WalkTable(m, g, path).Some?
    ensures var w := WalkTable(m, g, path).value; w.frame in owner && owner[w.frame] == owner[g] + path
    decreases |path|
  {
    var v := m[g][path[0]];
    assert LeadsTo(owner, owner[g], path[0], v);
    if |path| == 1 {
      assert path == [path[0]];
    } else {
      assert owner[g] + path == owner[v.frame] + path[1..];
      WalkEndsAtOwner(m, owner, pml4, lo, hi, v.frame, path[1..]);
    }
  }

  /** `translate_addr` finds the frame that the walk ends in. */
  lemma {:induction false} LocateWalk(m: Memory, owner: Owner, pml4: nat, lo: nat, hi: nat, g: nat, path: seq<nat>)
    requires Owned(m, owner, pml4, lo, hi) && WalkFrom(owner, g, path, lo, hi)
    ensures var t := WalkTable(m, g, path); Locate(m, g, path) == if t.None? then Absent else At(t.value.frame)
    decreases |path|
  {
    BitOfZero(PRESENT);
    var v := m[g][path[0]];
    if !Unused(v) && |path| > 1 {
      assert LeadsTo(owner, owner[g], path[0], v);
      LocateWalk(m, owner, pml4, lo, hi, v.frame, path[1..]);
    }
  }

  // ---- The recorded paths ----

  predicate Below(p: seq<nat>, q: seq<nat>) {
    |q| == |p| + 1 && q[..|p|] == p
  }

  /** The entry at the end of path `q` in table `t` leads to frame `g`. */
  predicate Hangs(t: Table, q: seq<nat>, g: nat) {
    |q| > 0 && q[|q| - 1] < 512 && !Unused(t[q[|q| - 1]]) && t[q[|q| - 1]].frame == g
  }

  ghost predicate Recorded(owner: Owner, p: seq<nat>) {
    p in owner.Values
  }

  ghost predicate DistinctPaths(owner: Owner) {
    forall f, g :: f in owner && g in owner && owner[f] == owner[g] ==> f == g
  }

  ghost predicate AllHang(m: Memory, owner: Owner) {
    forall f, g :: f in owner && g in owner && Below(owner[f], owner[g]) ==> f in m && Hangs(m[f], owner[g], g)
  }

  ghost predicate ClosedAbove(owner: Owner) {
    forall g :: g in owner && owner[g] != [] ==> Recorded(owner, owner[g][..|owner[g]| - 1])
  }

  /** No two frames have one path, every frame hangs from the entry its path ends in, and with a path
      the one above it is recorded: the frames of the tree are exactly its nodes. */
  ghost predicate Tree(m: Memory, owner: Owner) {
    DistinctPaths(owner) && AllHang(m, owner) && ClosedAbove(owner)
  }

  /** Nothing is recorded below an unused entry. */
  lemma UnusedNotRecorded(m: Memory, owner: Owner, table: nat, i: nat)
    requires AllHang(m, owner) && table in owner && table in m && i < 512 && Unused(m[table][i])
    ensures !Recorded(owner, owner[table] + [i])
  {
    var p := owner[table] + [i];
    assert Below(owner[table], p);
    forall h | h in owner && owner[h] == p ensures false {
      HangsOne(m, owner, table, h);
    }
  }

  lemma RecordedOne(owner: Owner, h: nat)
    requires h in owner
    ensures Recorded(owner, owner[h])
  {}

  /** `e` is `m` but for entry `i` of `table`, as far as the tree goes. */
  ghost predicate OneEntry(m: Memory, owner: Owner, e: Memory, table: nat, i: nat) {
    forall f, j :: f in owner && f in m && 0 <= j < 512 && (f != table || j != i) ==> f in e && e[f][j] == m[f][j]
  }

  lemma LinkHangs(m: Memory, owner: Owner, table: nat, i: nat, g: nat, e: Memory, f: nat, h: nat)
    requires DistinctPaths(owner) && AllHang(m, owner) && ClosedAbove(owner) && OneEntry(m, owner, e, table, i)
    requires table in owner && table in m && i < 512 && Unused(m[table][i]) && g !in owner
    requires table in e && e[table][i].frame == g && !Unused(e[table][i])
    requires var owner' := owner[g := owner[table] + [i]]; f in owner' && h in owner' && Below(owner'[f], owner'[h])
    ensures f in e && Hangs(e[f], owner[g := owner[table] + [i]][h], h)
  {
    hide DistinctPaths, AllHang, ClosedAbove, OneEntry, Recorded;
    var p := owner[table] + [i];
    UnusedNotRecorded(m, owner, table, i);
    if f == g {
      ClosedOne(owner, h);
    } else if h == g {
      assert owner[f] == owner[table] by { assert p[..|p| - 1] == owner[table]; }
      DistinctOne(owner, f, table);
    } else {
      HangsOne(m, owner, f, h);
      EntryOne(m, owner, e, table, i, f, owner[h][|owner[h]| - 1]);
    }
  }

  lemma ClosedOne(owner: Owner, h: nat)
    requires ClosedAbove(owner) && h in owner && owner[h] != []
    ensures Recorded(owner, owner[h][..|owner[h]| - 1])
  {
    hide Recorded;
  }

  lemma DistinctOne(owner: Owner, f: nat, g: nat)
    requires DistinctPaths(owner) && f in owner && g in owner && owner[f] == owner[g]
    ensures f == g
  {}

  lemma HangsOne(m: Memory, owner: Owner, f: nat, h: nat)
    requires AllHang(m, owner) && f in owner && h in owner && Below(owner[f], owner[h])
    ensures f in m && Hangs(m[f], owner[h], h)
  {}

  lemma EntryOne(m: Memory, owner: Owner, e: Memory, table: nat, i: nat, f: nat, j: nat)
    requires OneEntry(m, owner, e, table, i) && f in owner && f in m && j < 512 && (f != table || j != i)
    ensures f in e && e[f][j] == m[f][j]
  {}

  /** A frame linked at an unused entry is a new node. */
  lemma LinkTree(m: Memory, owner: Owner, table: nat, i: nat, g: nat, e: Memory)
    requires Tree(m, owner) && table in owner && table in m && i < 512 && Unused(m[table][i]) && g !in owner
    requires table in e && e[table][i].frame == g && !Unused(e[table][i]) && OneEntry(m, owner, e, table, i)
    ensures Tree(e, owner[g := owner[table] + [i]]) && !Recorded(owner, owner[table] + [i])
  {
    hide AllHang, Recorded, OneEntry, ClosedAbove, DistinctPaths;
    var p := owner[table] + [i];
    var owner' := owner[g := p];
    UnusedNotRecorded(m, owner, table, i);
    assert AllHang(e, owner') by {
      LinkAllHang(m, owner, table, i, g, e);
    }
    LinkClosed(owner, table, i, g);
    LinkDistinct(owner, g, p);
  }

  lemma LinkAllHang(m: Memory, owner: Owner, table: nat, i: nat, g: nat, e: Memory)
    requires DistinctPaths(owner) && AllHang(m, owner) && ClosedAbove(owner) && OneEntry(m, owner, e, table, i)
    requires table in owner && table in m && i < 512 && Unused(m[table][i]) && g !in owner
    requires table in e && e[table][i].frame == g && !Unused(e[table][i])
    ensures AllHang(e, owner[g := owner[table] + [i]])
  {
    hide DistinctPaths, ClosedAbove, OneEntry, Hangs;
    var owner' := owner[g := owner[table] + [i]];
    forall f, h | f in owner' && h in owner' && Below(owner'[f], owner'[h])
      ensures f in e && Hangs(e[f], owner'[h], h) {
      LinkHangs(m, owner, table, i, g, e, f, h);
    }
  }

  lemma LinkClosed(owner: Owner, table: nat, i: nat, g: nat)
    requires ClosedAbove(owner) && table in owner && g !in owner
    ensures ClosedAbove(owner[g := owner[table] + [i]])
  {
    hide Recorded;
    var p := owner[table] + [i];
    var owner' := owner[g := p];
    forall h | h in owner' && owner'[h] != [] ensures Recorded(owner', owner'[h][..|owner'[h]| - 1]) {
      if h == g {
        assert p[..|p| - 1] == owner[table];
        RecordedOne(owner, table);
      }
      RecordedStays(owner, g, p, owner'[h][..|owner'[h]| - 1]);
    }
  }

  lemma RecordedStays(owner: Owner, g: nat, p: seq<nat>, q: seq<nat>)
    requires g !in owner && Recorded(owner, q)
    ensures Recorded(owner[g := p], q)
  {
    ValuesWith(owner, g, p);
  }

  lemma LinkDistinct(owner: Owner, g: nat, p: seq<nat>)
    requires DistinctPaths(owner) && g !in owner && !Recorded(owner, p)
    ensures DistinctPaths(owner[g := p])
  {}

  /** Changing the flags of an entry moves nothing. */
  lemma SetFlagsTree(m: Memory, owner: Owner, table: nat, i: nat, w: Word)
    requires Tree(m, owner) && table in m && i < 512 && w.frame == m[table][i].frame && !Unused(w)
    ensures Tree(WriteEntry(m, table, i, w), owner)
  {
    hide DistinctPaths, ClosedAbove;
  }

  /** Nor does changing the contents of a page. */
  lemma PageWriteTree(m: Memory, owner: Owner, page: nat, t: Table)
    requires Tree(m, owner) && page in owner && |owner[page]| == 4 && forall f :: f in owner ==> |owner[f]| <= 4
    ensures Tree(m[page := t], owner)
  {
    hide DistinctPaths, ClosedAbove;
  }

  lemma ValuesWith(owner: Owner, g: nat, p: seq<nat>)
    requires g !in owner
    ensures owner[g := p].Values == owner.Values + {p} && |owner[g := p]| == |owner| + 1
  {
    var owner' := owner[g := p];
    assert owner'.Keys == owner.Keys + {g};
    forall q ensures q in owner'.Values <==> q in owner.Values + {p} {
      if q in owner.Values {
        var f :| f in owner && owner[f] == q;
        assert owner'[f] == q;
      }
      if q == p {
        assert owner'[g] == p;
      }
    }
  }

  /** As many frames as paths. */
  lemma TreeCount(m: Memory, owner: Owner)
    requires Tree(m, owner)
    ensures |owner| == |owner.Values|
  {
    hide AllHang, ClosedAbove;
    InjectiveCount(owner);
  }

  lemma {:induction false} InjectiveCount(owner: Owner)
    requires DistinctPaths(owner)
    ensures |owner| == |owner.Values|
    decreases |owner|
  {
    if owner.Keys == {} {
      assert owner.Values == {} && owner == map[];
    } else {
      var g :| g in owner.Keys;
      var rest := owner - {g};
      assert owner == rest[g := owner[g]];
      assert rest.Keys == owner.Keys - {g};
      InjectiveCount(rest);
      ValuesWith(rest, g, owner[g]);
      assert owner[g] !in rest.Values;
    }
  }

  /** The nodes on the way to a page. */
  function Prefixes(path: seq<nat>): set<seq<nat>>
    requires |path| == 4
  {
    {path[..0], path[..1], path[..2], path[..3], path}
  }

  /** With a node, all nodes above it are recorded. */
  lemma PathClosed(m: Memory, owner: Owner, path: seq<nat>)
    requires Tree(m, owner) && |path| == 4 && Recorded(owner, path)
    ensures Prefixes(path) <= owner.Values
  {
    assert path[..4] == path && path[..3][..2] == path[..2] && path[..2][..1] == path[..1]
           && path[..1][..0] == path[..0];
    AboveRecorded(owner, path);
    AboveRecorded(owner, path[..3]);
    AboveRecorded(owner, path[..2]);
    AboveRecorded(owner, path[..1]);
  }

  lemma AboveRecorded(owner: Owner, p: seq<nat>)
    requires ClosedAbove(owner) && p != [] && Recorded(owner, p)
    ensures Recorded(owner, p[..|p| - 1])
  {
    hide ClosedAbove;
    var g :| g in owner && owner[g] == p;
    ClosedOne(owner, g);
  }

  // ---- Trees and spare frames ----

  /** A tree whose spare frames can be handed out. */
  ghost predicate TreeReady(m: Memory, supply: seq<nat>, owner: Owner, pml4: nat, lo: nat, hi: nat) {
    && Owned(m, owner, pml4, lo, hi) && Tree(m, owner)
    && ValidSupply(m, supply) && forall f :: f in supply ==> f !in owner
  }

  ghost predicate FullPath(path: seq<nat>, lo: nat, hi: nat) {
    |path| == 4 && ValidPath(path) && lo <= path[0] < hi
  }

  /** From `m` to `e` only tables were written, and every walk except that along `path` ends as
      it did; frames new to the tree are among `from`; the other slots of the PML4 are as they were. */
  ghost predicate Grown(m: Memory, owner: Owner, from: set<nat>, e: Memory, owner': Owner,
                        pml4: nat, lo: nat, hi: nat, path: seq<nat>)
  {
    && e.Keys == m.Keys
    && (forall f :: f in owner ==> f in owner' && owner'[f] == owner[f])
    && (forall f :: f in owner' ==> f in owner || f in from)
    && (forall f :: f in m && (f !in owner' || |owner'[f]| == 4) ==> e[f] == m[f])
    && (forall p :: FullPath(p, lo, hi) && p != path ==> WalkTable(e, pml4, p) == WalkTable(m, pml4, p))
    && (pml4 in m ==> forall i :: 0 <= i < 512 && !(lo <= i < hi) ==> e[pml4][i] == m[pml4][i])
  }

  lemma GrownRefl(m: Memory, owner: Owner, from: set<nat>, pml4: nat, lo: nat, hi: nat)
    ensures Grown(m, owner, from, m, owner, pml4, lo, hi, [])
  {}

  lemma FirstInSupply(m: Memory, supply: seq<nat>)
    requires ValidSupply(m, supply) && supply != []
    ensures supply[0] in supply && supply[0] < TWO_40 && supply[0] in m
    ensures forall f :: f in supply[1..] ==> f in supply && f != supply[0]
  {}

  /** Taking the first frame of the supply for a page. */
  lemma TakeFrame(m: Memory, supply: seq<nat>, owner: Owner, pml4: nat, lo: nat, hi: nat)
    requires TreeReady(m, supply, owner, pml4, lo, hi) && supply != []
    ensures TreeReady(m, supply[1..], owner, pml4, lo, hi)
    ensures supply[0] in m && supply[0] < TWO_40 && supply[0] !in owner && supply[0] !in supply[1..]
    ensures Range(supply[1..]) + {supply[0]} == Range(supply)
    ensures forall f :: f in supply[1..] ==> f in supply
  {
    hide Owned;
    FirstInSupply(m, supply);
    assert supply == [supply[0]] + supply[1..];
  }

  lemma GrownTransitive(m: Memory, owner: Owner, from: set<nat>, e: Memory, owner': Owner, from': set<nat>,
                        g: Memory, owner'': Owner, pml4: nat, lo: nat, hi: nat, path: seq<nat>)
    requires Grown(m, owner, from, e, owner', pml4, lo, hi, [])
    requires Grown(e, owner', from', g, owner'', pml4, lo, hi, path)
    ensures Grown(m, owner, from + from', g, owner'', pml4, lo, hi, path)
  {
    hide WalkTable;
  }

  /** The flags a parent entry gets: those of PRESENT, WRITABLE and USER that the page asks for. */
  function ParentFlags(flags: nat): (r: nat)
    requires flags < TWO_12
    ensures r < TWO_12 && forall k: nat :: Bit(r, k) == (k <= USER && Bit(flags, k))
  {
    assert forall k: nat :: !Bit(0, k) by { forall k: nat ensures !Bit(0, k) { BitOfZero(k); } }
    OrLow(0, flags)
  }

  function OrLow(given: nat, flags: nat): (r: nat)
    requires given < TWO_12
    ensures r < TWO_12 && forall k: nat :: Bit(r, k) == (Bit(given, k) || (k <= USER && Bit(flags, k)))
  {
    WithFlag(WithFlag(WithFlag(given, PRESENT, Bit(given, PRESENT) || Bit(flags, PRESENT)),
                      WRITABLE, Bit(given, WRITABLE) || Bit(flags, WRITABLE)),
             USER, Bit(given, USER) || Bit(flags, USER))
  }

  predicate HasLow(lo: nat, flags: nat) {
    forall k: nat :: k <= USER && Bit(flags, k) ==> Bit(lo, k)
  }

  lemma LinkTableGrown(m: Memory, supply: seq<nat>, owner: Owner, pml4: nat, lo: nat, hi: nat, table: nat, i: nat,
                       w: Word)
    requires TreeReady(m, supply, owner, pml4, lo, hi) && table in owner && |owner[table]| <= 2 && i < 512
    requires supply != [] && w.frame == supply[0] && NamesTable(w) && Managed(owner[table], i, lo, hi)
             && Unused(m[table][i])
    ensures var e := WriteEntry(m, table, i, w)[w.frame := EmptyTable()];
            var owner' := owner[w.frame := owner[table] + [i]];
            && TreeReady(e, supply[1..], owner', pml4, lo, hi)
            && Grown(m, owner, Range(supply), e, owner', pml4, lo, hi, [])
  {
    hide Owned, WalkTable, Tree, Recorded;
    assert supply[0] in supply && forall f :: f in supply[1..] ==> f in supply;
    OwnersInMemory(m, owner, pml4, lo, hi);
    LinkTableOwned(m, owner, pml4, lo, hi, table, i, w);
    var e := WriteEntry(m, table, i, w)[w.frame := EmptyTable()];
    BitOfZero(PRESENT);
    LinkTree(m, owner, table, i, w.frame, e);
    forall p | FullPath(p, lo, hi) ensures WalkTable(e, pml4, p) == WalkTable(m, pml4, p) {
      RootWalk(m, owner, pml4, lo, hi, p);
      LinkTableWalk(m, owner, pml4, lo, hi, table, i, w, pml4, p);
    }
  }

  lemma SetFlagsGrown(m: Memory, supply: seq<nat>, owner: Owner, pml4: nat, lo: nat, hi: nat, table: nat, i: nat,
                      w: Word)
    requires TreeReady(m, supply, owner, pml4, lo, hi) && table in owner && |owner[table]| <= 2 && i < 512
    requires w.frame == m[table][i].frame && NamesTable(w) && NamesTable(m[table][i])
             && Managed(owner[table], i, lo, hi)
    ensures var e := WriteEntry(m, table, i, w);
            TreeReady(e, supply, owner, pml4, lo, hi) && Grown(m, owner, Range(supply), e, owner, pml4, lo, hi, [])
  {
    hide Owned, WalkTable, Tree;
    BitOfZero(PRESENT);
    OwnersInMemory(m, owner, pml4, lo, hi);
    SetFlagsOwned(m, owner, pml4, lo, hi, table, i, w);
    SetFlagsTree(m, owner, table, i, w);
    var e := WriteEntry(m, table, i, w);
    forall p | FullPath(p, lo, hi) ensures WalkTable(e, pml4, p) == WalkTable(m, pml4, p) {
      RootWalk(m, owner, pml4, lo, hi, p);
      SetFlagsWalk(m, owner, pml4, lo, hi, table, i, w, pml4, p);
    }
  }

  /** A parent entry that names the table `f`. */
  predicate Links(w: Word, f: nat) {
    w.frame == f && NamesTable(w)
  }

  /** The tables met on the way to the last-level entry of `path`. */
  predicate Chain(m: Memory, pml4: nat, t3: nat, t2: nat, t1: nat, path: seq<nat>) {
    && |path| == 4 && (forall k :: 0 <= k < 4 ==> path[k] < 512) && pml4 in m && t3 in m && t2 in m && t1 in m
    && Links(m[pml4][path[0]], t3) && Links(m[t3][path[1]], t2) && Links(m[t2][path[2]], t1)
  }

  /** Three links and a last-level entry make a walk. */
  lemma WalkAlong(m: Memory, pml4: nat, t3: nat, t2: nat, t1: nat, path: seq<nat>)
    requires Chain(m, pml4, t3, t2, t1, path)
    ensures WalkTable(m, pml4, path) == if Unused(m[t1][path[3]]) then None else Some(m[t1][path[3]])
  {
    BitOfZero(PRESENT);
    var p3 := path[1..];
    var p2 := p3[1..];
    var p1 := p2[1..];
    assert p1 == [path[3]];
    assert WalkTable(m, t1, p1) == if Unused(m[t1][path[3]]) then None else Some(m[t1][path[3]]);
    assert WalkTable(m, t2, p2) == WalkTable(m, t1, p1);
    assert WalkTable(m, t3, p3) == WalkTable(m, t2, p2);
  }

  lemma LinkPageGrown(m: Memory, supply: seq<nat>, owner: Owner, pml4: nat, lo: nat, hi: nat, table: nat, i: nat,
                      w: Word)
    requires TreeReady(m, supply, owner, pml4, lo, hi) && table in owner && |owner[table]| == 3 && i < 512
    requires w.frame in m && w.frame !in owner && w.frame !in supply && !Unused(w) && table in m && Unused(m[table][i])
    ensures var e := WriteEntry(m, table, i, w);
            var path := owner[table] + [i];
            var owner' := owner[w.frame := path];
            && TreeReady(e, supply, owner', pml4, lo, hi)
            && Grown(m, owner, {w.frame}, e, owner', pml4, lo, hi, path)
  {
    hide Owned, WalkTable, Tree, Recorded;
    OwnersInMemory(m, owner, pml4, lo, hi);
    LinkPageOwned(m, owner, pml4, lo, hi, table, i, w);
    var e := WriteEntry(m, table, i, w);
    LinkTree(m, owner, table, i, w.frame, e);
    forall p | FullPath(p, lo, hi) && p != owner[table] + [i] ensures WalkTable(e, pml4, p) == WalkTable(m, pml4, p) {
      RootWalk(m, owner, pml4, lo, hi, p);
      assert owner[pml4] + p == p;
      LinkPageWalk(m, owner, pml4, lo, hi, table, i, w, pml4, p);
    }
  }

  lemma UnusedTables(m: Memory, w: Word, level: nat)
    requires Unused(w)
    ensures Tables(m, w, level) == {}
  {}

  /** Writes outside the tree leave it as it is. */
  lemma TreeElsewhere(m: Memory, supply: seq<nat>, owner: Owner, pml4: nat, lo: nat, hi: nat, e: Memory)
    requires TreeReady(m, supply, owner, pml4, lo, hi) && e.Keys == m.Keys
    requires forall f :: f in owner && f in m ==> e[f] == m[f]
    ensures TreeReady(e, supply, owner, pml4, lo, hi)
  {
    hide DistinctPaths, ClosedAbove;
  }

  /** The managed slots are well formed, and their tables are frames of the tree. */
  lemma {:induction false} OwnedEntry(m: Memory, owner: Owner, pml4: nat, lo: nat, hi: nat, f: nat, i: nat, level: nat)
    requires Owned(m, owner, pml4, lo, hi) && f in owner && f in m && |owner[f]| + level == 3 && i < 512
    requires Managed(owner[f], i, lo, hi) && !Unused(m[f][i])
    ensures WellFormed(m, m[f][i], level) && Tables(m, m[f][i], level) <= owner.Keys
    decreases level, 0
  {
    hide Owned, TablesFirst;
    OwnersInMemory(m, owner, pml4, lo, hi);
    UsedEntry(m, owner, pml4, lo, hi, f, i);
    if level > 0 {
      OwnedEntries(m, owner, pml4, lo, hi, m[f][i].frame, level - 1, 512);
    }
  }

  lemma {:induction false} OwnedEntries(m: Memory, owner: Owner, pml4: nat, lo: nat, hi: nat, f: nat, level: nat,
                                        n: nat)
    requires Owned(m, owner, pml4, lo, hi) && f in owner && f in m && |owner[f]| + level == 3 && n <= 512
    requires forall i :: 0 <= i < n ==> Managed(owner[f], i, lo, hi)
    ensures TablesFirst(m, m[f], level, n) <= owner.Keys
    ensures forall i :: 0 <= i < n && !Unused(m[f][i]) ==> WellFormed(m, m[f][i], level)
    decreases level, n + 1
  {
    hide WellFormed, Owned, Tables;
    if n > 0 {
      OwnedEntries(m, owner, pml4, lo, hi, f, level, n - 1);
      if !Unused(m[f][n - 1]) {
        OwnedEntry(m, owner, pml4, lo, hi, f, n - 1, level);
      } else {
        UnusedTables(m, m[f][n - 1], level);
      }
    }
  }

  /** The frame recorded one index below a table of the tree. */
  lemma NodeBelow(m: Memory, owner: Owner, pml4: nat, lo: nat, hi: nat, f: nat, i: nat) returns (g: nat)
    requires Owned(m, owner, pml4, lo, hi) && Tree(m, owner) && f in owner && |owner[f]| <= 3 && i < 512
    requires Managed(owner[f], i, lo, hi) && Recorded(owner, owner[f] + [i])
    ensures g in owner && owner[g] == owner[f] + [i] && f in m && !Unused(m[f][i]) && m[f][i].frame == g && g in m
    ensures |owner[f]| < 3 ==> NamesTable(m[f][i])
  {
    hide DistinctPaths, ClosedAbove;
    var p := owner[f] + [i];
    g :| g in owner && owner[g] == p;
    assert Below(owner[f], owner[g]);
    assert LeadsTo(owner, owner[f], i, m[f][i]);
  }

  /** A recorded page is mapped. */
  lemma RecordedWalk(m: Memory, owner: Owner, pml4: nat, lo: nat, hi: nat, path: seq<nat>)
    requires Owned(m, owner, pml4, lo, hi) && Tree(m, owner) && FullPath(path, lo, hi) && Recorded(owner, path)
    ensures WalkTable(m, pml4, path).Some?
  {
    hide Owned, Tree, WalkTable, Recorded;
    RootWalk(m, owner, pml4, lo, hi, path);
    RecordedPrefixes(m, owner, path);
    assert [] + [path[0]] == path[..1] && path[..1] + [path[1]] == path[..2] && path[..2] + [path[2]] == path[..3];
    assert path[..3] + [path[3]] == path;
    var t3 := NodeBelow(m, owner, pml4, lo, hi, pml4, path[0]);
    var t2 := NodeBelow(m, owner, pml4, lo, hi, t3, path[1]);
    var t1 := NodeBelow(m, owner, pml4, lo, hi, t2, path[2]);
    var g := NodeBelow(m, owner, pml4, lo, hi, t1, path[3]);
    WalkAlong(m, pml4, t3, t2, t1, path);
  }

  lemma RecordedPrefixes(m: Memory, owner: Owner, path: seq<nat>)
    requires Tree(m, owner) && |path| == 4 && Recorded(owner, path)
    ensures Recorded(owner, path[..1]) && Recorded(owner, path[..2]) && Recorded(owner, path[..3])
  {
    hide Tree;
    PathClosed(m, owner, path);
  }

  lemma UnlinkedWalk(m: Memory, pml4: nat, path: seq<nat>)
    requires |path| == 4 && ValidPath(path) && pml4 in m && Unused(m[pml4][path[0]])
    ensures WalkTable(m, pml4, path) == None
  {}

  lemma UnlinkedWalk2(m: Memory, pml4: nat, t3: nat, path: seq<nat>)
    requires |path| == 4 && ValidPath(path) && pml4 in m && t3 in m
    requires Links(m[pml4][path[0]], t3) && Unused(m[t3][path[1]])
    ensures WalkTable(m, pml4, path) == None
  {
    assert WalkTable(m, t3, path[1..]) == None;
  }

  lemma UnlinkedWalk3(m: Memory, pml4: nat, t3: nat, t2: nat, path: seq<nat>)
    requires |path| == 4 && ValidPath(path) && pml4 in m && t3 in m && t2 in m
    requires Links(m[pml4][path[0]], t3) && Links(m[t3][path[1]], t2) && Unused(m[t2][path[2]])
    ensures WalkTable(m, pml4, path) == None
  {
    assert WalkTable(m, t2, path[1..][1..]) == None;
    assert WalkTable(m, t3, path[1..]) == None;
  }

  lemma GrownWalk(m: Memory, owner: Owner, from: set<nat>, e: Memory, owner': Owner, pml4: nat, lo: nat, hi: nat,
                  path: seq<nat>)
    requires Grown(m, owner, from, e, owner', pml4, lo, hi, []) && FullPath(path, lo, hi)
    ensures WalkTable(e, pml4, path) == WalkTable(m, pml4, path)
    ensures forall f :: f in owner ==> f in owner' && owner'[f] == owner[f]
  {}

  lemma GrownTwice(m: Memory, owner: Owner, supply: seq<nat>, e: Memory, owner': Owner, supply': seq<nat>,
                   g: Memory, owner'': Owner, pml4: nat, lo: nat, hi: nat)
    requires Grown(m, owner, Range(supply), e, owner', pml4, lo, hi, [])
    requires Grown(e, owner', Range(supply'), g, owner'', pml4, lo, hi, [])
    requires forall f :: f in supply' ==> f in supply
    ensures Grown(m, owner, Range(supply), g, owner'', pml4, lo, hi, [])
    ensures forall f :: f in owner' ==> f in owner'' && owner''[f] == owner'[f]
  {
    hide WalkTable;
    GrownTransitive(m, owner, Range(supply), e, owner', Range(supply'), g, owner'', pml4, lo, hi, []);
    assert Range(supply) + Range(supply') == Range(supply);
  }

  lemma GrownWeaken(m: Memory, owner: Owner, from: set<nat>, e: Memory, owner': Owner, pml4: nat, lo: nat, hi: nat,
                    from': set<nat>, path: seq<nat>)
    requires Grown(m, owner, from, e, owner', pml4, lo, hi, []) && from <= from'
    ensures Grown(m, owner, from', e, owner', pml4, lo, hi, path)
  {}

  /** A frame outside the tree and the supply stays outside the grown tree. */
  lemma NewPage(m: Memory, owner: Owner, from: set<nat>, e: Memory, owner': Owner, pml4: nat, lo: nat, hi: nat,
                frame: nat)
    requires Grown(m, owner, from, e, owner', pml4, lo, hi, []) && frame in m && frame !in owner && frame !in from
    ensures frame !in owner' && frame in e
  {}

  lemma OwnersInMemory(m: Memory, owner: Owner, pml4: nat, lo: nat, hi: nat)
    requires Owned(m, owner, pml4, lo, hi)
    ensures forall f :: f in owner ==> f in m && |owner[f]| <= 4
    ensures pml4 in owner && owner[pml4] == []
  {}

  lemma RootWalk(m: Memory, owner: Owner, pml4: nat, lo: nat, hi: nat, path: seq<nat>)
    requires Owned(m, owner, pml4, lo, hi) && FullPath(path, lo, hi)
    ensures WalkFrom(owner, pml4, path, lo, hi) && owner[pml4] == []
  {}

  lemma UsedEntry(m: Memory, owner: Owner, pml4: nat, lo: nat, hi: nat, table: nat, i: nat)
    requires Owned(m, owner, pml4, lo, hi) && table in owner && |owner[table]| <= 3 && i < 512
    requires Managed(owner[table], i, lo, hi) && table in m && !Unused(m[table][i])
    ensures LeadsTo(owner, owner[table], i, m[table][i])
  {}

  /** An entry that already leads to a table with the wanted access flags. */
  predicate Linked(m: Memory, table: nat, i: nat, flags: nat) {
    table in m && i < 512 && !Unused(m[table][i]) && HasLow(m[table][i].lo, flags)
  }

  lemma LinkedKept(m: Memory, e: Memory, table: nat, i: nat, flags: nat)
    requires table in m && table in e && e[table] == m[table]
    ensures Linked(e, table, i, flags) == Linked(m, table, i, flags)
  {}

  /** Every parent entry on the way along `path` names a table and has the wanted access flags. */
  ghost predicate Granted(m: Memory, table: nat, path: seq<nat>, flags: nat)
    decreases |path|
  {
    |path| <= 1 || (&& Linked(m, table, path[0], flags) && NamesTable(m[table][path[0]])
                    && Granted(m, m[table][path[0]].frame, path[1..], flags))
  }

  lemma GrantedChain(m: Memory, pml4: nat, t3: nat, t2: nat, t1: nat, path: seq<nat>, flags: nat)
    requires Chain(m, pml4, t3, t2, t1, path)
    requires Linked(m, pml4, path[0], flags) && Linked(m, t3, path[1], flags) && Linked(m, t2, path[2], flags)
    ensures Granted(m, pml4, path, flags)
  {
    var p3 := path[1..];
    var p2 := p3[1..];
    assert Granted(m, t1, p2[1..], flags);
    assert Granted(m, t2, p2, flags);
    assert Granted(m, t3, p3, flags);
  }

  lemma GrantedTables(m: Memory, pml4: nat, path: seq<nat>, flags: nat)
    requires |path| == 4 && Granted(m, pml4, path, flags)
    ensures Linked(m, pml4, path[0], flags)
    ensures var t3 := m[pml4][path[0]].frame;
            Linked(m, t3, path[1], flags)
            && Linked(m, m[t3][path[1]].frame, path[2], flags)
  {
    var p3 := path[1..];
    var t3 := m[pml4][path[0]].frame;
    assert Granted(m, t3, p3, flags);
    assert Granted(m, m[t3][p3[0]].frame, p3[1..], flags);
  }

  /** Writing the last-level entry leaves the parents as they are. */
  lemma PageGranted(m: Memory, e: Memory, pml4: nat, t3: nat, t2: nat, t1: nat, path: seq<nat>, w: Word, flags: nat)
    requires Chain(m, pml4, t3, t2, t1, path) && Granted(m, pml4, path, flags)
    requires t1 != pml4 && t1 != t3 && t1 != t2 && e == WriteEntry(m, t1, path[3], w)
    ensures Granted(e, pml4, path, flags)
  {
    GrantedTables(m, pml4, path, flags);
    GrantedChain(e, pml4, t3, t2, t1, path, flags);
  }

  lemma UnusedUnrecorded(m: Memory, owner: Owner, table: nat, i: nat)
    requires Tree(m, owner) && table in owner && table in m && i < 512 && Unused(m[table][i])
    ensures !Recorded(owner, owner[table] + [i])
  {
    hide DistinctPaths, ClosedAbove, AllHang;
    UnusedNotRecorded(m, owner, table, i);
  }

  lemma NotAbove(m: Memory, owner: Owner, p: seq<nat>)
    requires Tree(m, owner) && p != [] && !Recorded(owner, p[..|p| - 1])
    ensures !Recorded(owner, p)
  {
    hide DistinctPaths, ClosedAbove, AllHang;
    if Recorded(owner, p) {
      AboveRecorded(owner, p);
    }
  }

  lemma LinksFrame(w: Word, f: nat)
    requires Links(w, f)
    ensures w.frame == f
  {}

  /** Every frame taken from the supply became a node of the tree, at one of the paths `most`. */
  ghost predicate NewNodes(owner: Owner, supply: seq<nat>, owner': Owner, supply': seq<nat>, most: set<seq<nat>>) {
    && |owner'| + |supply'| == |owner| + |supply|
    && owner.Values <= owner'.Values <= owner.Values + most
  }

  lemma NewNodesRefl(owner: Owner, supply: seq<nat>, most: set<seq<nat>>)
    ensures NewNodes(owner, supply, owner, supply, most)
  {}

  lemma NewNodesOne(owner: Owner, supply: seq<nat>, g: nat, p: seq<nat>)
    requires g !in owner && supply != []
    ensures NewNodes(owner, supply, owner[g := p], supply[1..], {p})
  {
    ValuesWith(owner, g, p);
  }

  lemma NewNodesTwice(owner: Owner, supply: seq<nat>, owner': Owner, supply': seq<nat>, most: set<seq<nat>>,
                      owner'': Owner, supply'': seq<nat>, more: set<seq<nat>>)
    requires NewNodes(owner, supply, owner', supply', most) && NewNodes(owner', supply', owner'', supply'', more)
    ensures NewNodes(owner, supply, owner'', supply'', most + more)
  {}

  lemma NodesOnPath(owner: Owner, supply: seq<nat>, owner': Owner, supply': seq<nat>, path: seq<nat>)
    requires |path| == 4 && NewNodes(owner, supply, owner', supply', {path[..1]} + {path[..2]} + {path[..3]})
    ensures |owner'| + |supply'| == |owner| + |supply|
    ensures owner.Values <= owner'.Values <= owner.Values + Prefixes(path) && path in Prefixes(path)
  {}

  lemma ChainEnds(m: Memory, pml4: nat, t3: nat, t2: nat, t1: nat, path: seq<nat>)
    requires Chain(m, pml4, t3, t2, t1, path)
    ensures t1 in m && pml4 in m
  {}

  /** Writing the last-level entry of a page, all tables being there. */
  lemma LinkLast(m: Memory, owner: Owner, supply: seq<nat>, pml4: nat, lo: nat, hi: nat,
                 t3: nat, t2: nat, t1: nat, path: seq<nat>, w: Word, flags: nat)
    requires TreeReady(m, supply, owner, pml4, lo, hi) && Chain(m, pml4, t3, t2, t1, path)
             && Granted(m, pml4, path, flags)
    requires pml4 in owner && t3 in owner && t2 in owner && t1 in owner
    requires owner[pml4] == [] && owner[t3] == path[..1] && owner[t2] == path[..2] && owner[t1] == path[..3]
    requires Unused(m[t1][path[3]]) && Bit(w.lo, PRESENT) && w.frame in m && w.frame !in owner && w.frame !in supply
    requires Linked(m, pml4, path[0], flags)
    ensures var e, owner' := WriteEntry(m, t1, path[3], w), owner[w.frame := path];
            && TreeReady(e, supply, owner', pml4, lo, hi)
            && Grown(m, owner, {w.frame}, e, owner', pml4, lo, hi, path)
            && WalkTable(e, pml4, path) == Some(w)
            && pml4 in e && e[pml4] == m[pml4] && Linked(e, pml4, path[0], flags) && Granted(e, pml4, path, flags)
            && |owner'| == |owner| + 1 && owner'.Values == owner.Values + {path} && Recorded(owner', path)
  {
    hide TreeReady, Grown, WalkTable, Granted, Recorded;
    BitOfZero(PRESENT);
    var e := WriteEntry(m, t1, path[3], w);
    assert path[..3] + [path[3]] == path;
    LinkPageGrown(m, supply, owner, pml4, lo, hi, t1, path[3], w);
    ValuesWith(owner, w.frame, path);
    RecordedOne(owner[w.frame := path], w.frame);
    PageGranted(m, e, pml4, t3, t2, t1, path, w, flags);
    WalkAlong(e, pml4, t3, t2, t1, path);
  }

  // ---- What the mapping code does to any memory ----

  /** What `create_next_table` gives: the table below an entry, or why there is none. `Missing` stands for
      a table outside physical memory. */
  datatype Next = Table(frame: nat) | NoFrameLeft | HugeParent | Missing

  datatype NextStep = NextStep(mem: Memory, supply: seq<nat>, next: Next)

  /** `create_next_table`: the table below entry `i`, made (zeroed) from a new frame when the entry is unused,
      and given the page's access flags when it has not got them. */
  ghost function NextTable(m: Memory, supply: seq<nat>, table: nat, i: nat, flags: nat): (s: NextStep)
    requires table in m && i < 512 && flags < TWO_12 && Bit(flags, PRESENT) && ValidSupply(m, supply)
    ensures s.mem.Keys == m.Keys && ValidSupply(s.mem, s.supply) && (s.next.Table? ==> s.next.frame in m)
    ensures forall f :: f in s.supply ==> f in supply
  {
    var entry := m[table][i];
    if Unused(entry) then
      if supply == [] then NextStep(m, supply, NoFrameLeft)
      else
        FirstInSupply(m, supply);
        var f := supply[0];
        NextStep(WriteEntry(m, table, i, Word(ParentFlags(flags), f, 0))[f := EmptyTable()], supply[1..], Table(f))
    else
      var e := if HasLow(entry.lo, flags) then m
               else WriteEntry(m, table, i, Word(OrLow(entry.lo, flags), entry.frame, entry.hi));
      NextStep(e, supply, if Bit(entry.lo, HUGE) then HugeParent
                          else if entry.frame in m then Table(entry.frame) else Missing)
  }

  /** The first two tables on the way along `path`. */
  ghost function ReachDirectory(m: Memory, supply: seq<nat>, pml4: nat, path: seq<nat>, flags: nat): (s: NextStep)
    requires pml4 in m && |path| == 4 && ValidPath(path) && flags < TWO_12 && Bit(flags, PRESENT)
    requires ValidSupply(m, supply)
    ensures s.mem.Keys == m.Keys && ValidSupply(s.mem, s.supply) && (s.next.Table? ==> s.next.frame in m)
  {
    var a := NextTable(m, supply, pml4, path[0], flags);
    if a.next.Table? then NextTable(a.mem, a.supply, a.next.frame, path[1], flags) else a
  }

  /** All three tables on the way along `path`. */
  ghost function ReachTable(m: Memory, supply: seq<nat>, pml4: nat, path: seq<nat>, flags: nat): (s: NextStep)
    requires pml4 in m && |path| == 4 && ValidPath(path) && flags < TWO_12 && Bit(flags, PRESENT)
    requires ValidSupply(m, supply)
    ensures s.mem.Keys == m.Keys && ValidSupply(s.mem, s.supply) && (s.next.Table? ==> s.next.frame in m)
  {
    var b := ReachDirectory(m, supply, pml4, path, flags);
    if b.next.Table? then NextTable(b.mem, b.supply, b.next.frame, path[2], flags) else b
  }

  datatype MapResult = Mapped | AlreadyMapped | NoFrame | ParentHuge | ParentMissing

  function Refusal(n: Next): MapResult
    requires !n.Table?
  {
    match n
    case NoFrameLeft => NoFrame
    case HugeParent => ParentHuge
    case Missing => ParentMissing
  }

  datatype MapStep = MapStep(mem: Memory, supply: seq<nat>, result: MapResult)

  /** `map_to`: maps the page with indices `path` to `frame`. A page that is mapped is refused. */
  ghost function MapPath(m: Memory, supply: seq<nat>, pml4: nat, path: seq<nat>, frame: nat, lo: nat, hi: nat)
    : (s: MapStep)
    requires pml4 in m && |path| == 4 && ValidPath(path) && lo < TWO_12 && hi < TWO_12 && Bit(lo, PRESENT)
    requires ValidSupply(m, supply) && frame < TWO_40
    ensures s.mem.Keys == m.Keys && ValidSupply(s.mem, s.supply)
  {
    var c := ReachTable(m, supply, pml4, path, lo);
    if !c.next.Table? then MapStep(c.mem, c.supply, Refusal(c.next))
    else if !Unused(c.mem[c.next.frame][path[3]]) then MapStep(c.mem, c.supply, AlreadyMapped)
    else MapStep(WriteEntry(c.mem, c.next.frame, path[3], Word(lo, frame, hi)), c.supply, Mapped)
  }

  // ---- What it does to a tree ----

  lemma {:induction false} NextTableGrown(m: Memory, supply: seq<nat>, owner: Owner, pml4: nat, lo: nat, hi: nat,
                                          table: nat, i: nat, flags: nat, s: NextStep)
    returns (owner': Owner)
    requires TreeReady(m, supply, owner, pml4, lo, hi) && table in owner && table in m && |owner[table]| <= 2
    requires i < 512 && Managed(owner[table], i, lo, hi) && flags < TWO_12 && Bit(flags, PRESENT)
    requires s == NextTable(m, supply, table, i, flags)
    ensures TreeReady(s.mem, s.supply, owner', pml4, lo, hi)
    ensures Grown(m, owner, Range(supply), s.mem, owner', pml4, lo, hi, [])
    ensures NewNodes(owner, supply, owner', s.supply, {owner[table] + [i]})
    ensures s.next == NoFrameLeft <==> Unused(m[table][i]) && supply == []
    ensures s.next == NoFrameLeft ==> s.mem == m && owner' == owner && s.supply == []
    ensures Linked(m, table, i, flags) ==> s.mem == m && owner' == owner && s.supply == supply
    ensures s.next != NoFrameLeft ==>
              && s.next.Table? && s.next.frame in owner' && owner'[s.next.frame] == owner[table] + [i]
              && table in s.mem && Links(s.mem[table][i], s.next.frame) && Linked(s.mem, table, i, flags)
              && (forall g :: g in owner && g != table ==> g in s.mem && g in m && s.mem[g] == m[g])
  {
    hide Owned, Grown, ValidSupply, WalkTable, Tree, NewNodes;
    owner' := owner;
    OwnersInMemory(m, owner, pml4, lo, hi);
    var most := {owner[table] + [i]};
    NewNodesRefl(owner, supply, most);
    GrownRefl(m, owner, Range(supply), pml4, lo, hi);
    var entry := m[table][i];
    if Unused(entry) {
      if supply != [] {
        FirstInSupply(m, supply);
        LinkTableGrown(m, supply, owner, pml4, lo, hi, table, i, Word(ParentFlags(flags), supply[0], 0));
        NewNodesOne(owner, supply, supply[0], owner[table] + [i]);
        owner' := owner[supply[0] := owner[table] + [i]];
      }
    } else {
      UsedEntry(m, owner, pml4, lo, hi, table, i);
      if !HasLow(entry.lo, flags) {
        SetFlagsGrown(m, supply, owner, pml4, lo, hi, table, i,
                      Word(OrLow(entry.lo, flags), entry.frame, entry.hi));
      }
    }
  }

  lemma {:induction false} ReachDirectoryGrown(m: Memory, supply: seq<nat>, owner: Owner, pml4: nat, lo: nat, hi: nat,
                                               path: seq<nat>, flags: nat, s: NextStep)
    returns (owner': Owner, t3: nat)
    requires TreeReady(m, supply, owner, pml4, lo, hi) && FullPath(path, lo, hi) && pml4 in m
    requires flags < TWO_12 && Bit(flags, PRESENT) && s == ReachDirectory(m, supply, pml4, path, flags)
    ensures TreeReady(s.mem, s.supply, owner', pml4, lo, hi) && (s.next.Table? || s.next == NoFrameLeft)
    ensures Grown(m, owner, Range(supply), s.mem, owner', pml4, lo, hi, [])
    ensures NewNodes(owner, supply, owner', s.supply, {path[..1]} + {path[..2]})
    ensures Linked(m, pml4, path[0], flags) ==> pml4 in s.mem && s.mem[pml4] == m[pml4]
    ensures Granted(m, pml4, path, flags) ==> s.next.Table? && s.mem == m && owner' == owner && s.supply == supply
    ensures s.next == NoFrameLeft ==>
              s.supply == [] && WalkTable(s.mem, pml4, path) == None && !Recorded(owner', path[..2])
    ensures forall f :: f in s.supply ==> f in supply
    ensures s.next.Table? ==>
              && Linked(s.mem, pml4, path[0], flags) && t3 in s.mem && Linked(s.mem, t3, path[1], flags)
              && pml4 in s.mem && s.next.frame in s.mem
              && Links(s.mem[pml4][path[0]], t3) && Links(s.mem[t3][path[1]], s.next.frame)
              && pml4 in owner' && t3 in owner' && s.next.frame in owner'
              && owner'[pml4] == [] && owner'[t3] == path[..1] && owner'[s.next.frame] == path[..2]
  {
    hide Owned, Grown, ValidSupply, WalkTable, Linked, Links, Tree, NewNodes, Recorded, Granted, NextTable;
    t3 := 0;
    assert [] + [path[0]] == path[..1] && path[..1] + [path[1]] == path[..2] && path[..2][..1] == path[..1];
    OwnersInMemory(m, owner, pml4, lo, hi);
    if Granted(m, pml4, path, flags) {
      GrantedTables(m, pml4, path, flags);
    }
    var a := NextTable(m, supply, pml4, path[0], flags);
    var o1 := NextTableGrown(m, supply, owner, pml4, lo, hi, pml4, path[0], flags, a);
    GrownWalk(m, owner, Range(supply), a.mem, o1, pml4, lo, hi, path);
    if a.next == NoFrameLeft {
      UnlinkedWalk(a.mem, pml4, path);
      UnusedUnrecorded(a.mem, o1, pml4, path[0]);
      NotAbove(a.mem, o1, path[..2]);
      NewNodesTwice(owner, supply, o1, a.supply, {path[..1]}, o1, a.supply, {path[..2]})
        by { NewNodesRefl(o1, a.supply, {path[..2]}); }
      return o1, 0;
    }
    t3 := a.next.frame;
    LinksFrame(a.mem[pml4][path[0]], t3);
    OwnersInMemory(a.mem, o1, pml4, lo, hi);
    owner' := NextTableGrown(a.mem, a.supply, o1, pml4, lo, hi, t3, path[1], flags, s);
    GrownTwice(m, owner, supply, a.mem, o1, a.supply, s.mem, owner', pml4, lo, hi);
    NewNodesTwice(owner, supply, o1, a.supply, {path[..1]}, owner', s.supply, {path[..2]});
    LinkedKept(a.mem, s.mem, pml4, path[0], flags);
    OwnersInMemory(s.mem, owner', pml4, lo, hi);
    if s.next == NoFrameLeft {
      UnlinkedWalk2(s.mem, pml4, t3, path);
      UnusedUnrecorded(s.mem, owner', t3, path[1]);
    }
  }

  lemma {:induction false} ReachTableGrown(m: Memory, supply: seq<nat>, owner: Owner, pml4: nat, lo: nat, hi: nat,
                                           path: seq<nat>, flags: nat, s: NextStep)
    returns (owner': Owner, t3: nat, t2: nat)
    requires TreeReady(m, supply, owner, pml4, lo, hi) && FullPath(path, lo, hi) && pml4 in m
    requires flags < TWO_12 && Bit(flags, PRESENT) && s == ReachTable(m, supply, pml4, path, flags)
    ensures TreeReady(s.mem, s.supply, owner', pml4, lo, hi) && (s.next.Table? || s.next == NoFrameLeft)
    ensures Grown(m, owner, Range(supply), s.mem, owner', pml4, lo, hi, [])
    ensures NewNodes(owner, supply, owner', s.supply, {path[..1]} + {path[..2]} + {path[..3]})
    ensures WalkTable(s.mem, pml4, path) == WalkTable(m, pml4, path)
    ensures Linked(m, pml4, path[0], flags) ==> pml4 in s.mem && s.mem[pml4] == m[pml4]
    ensures Granted(m, pml4, path, flags) ==> s.next.Table? && s.mem == m && owner' == owner && s.supply == supply
    ensures s.next == NoFrameLeft ==>
              s.supply == [] && WalkTable(s.mem, pml4, path) == None && !Recorded(owner', path[..3])
    ensures forall f :: f in s.supply ==> f in supply
    ensures s.next.Table? ==>
              && Linked(s.mem, pml4, path[0], flags) && Granted(s.mem, pml4, path, flags)
              && Chain(s.mem, pml4, t3, t2, s.next.frame, path)
              && pml4 in owner' && t3 in owner' && t2 in owner' && s.next.frame in owner'
              && owner'[pml4] == [] && owner'[t3] == path[..1] && owner'[t2] == path[..2]
              && owner'[s.next.frame] == path[..3]
  {
    hide Owned, Grown, ValidSupply, WalkTable, Linked, Links, Tree, NewNodes, Recorded, Granted, NextTable,
         ReachDirectory;
    t2 := 0;
    assert path[..2] + [path[2]] == path[..3] && path[..3][..2] == path[..2];
    var two := {path[..1]} + {path[..2]};
    if Granted(m, pml4, path, flags) {
      GrantedTables(m, pml4, path, flags);
    }
    var b := ReachDirectory(m, supply, pml4, path, flags);
    var o2;
    o2, t3 := ReachDirectoryGrown(m, supply, owner, pml4, lo, hi, path, flags, b);
    GrownWalk(m, owner, Range(supply), b.mem, o2, pml4, lo, hi, path);
    if b.next == NoFrameLeft {
      NotAbove(b.mem, o2, path[..3]);
      NewNodesTwice(owner, supply, o2, b.supply, two, o2, b.supply, {path[..3]})
        by { NewNodesRefl(o2, b.supply, {path[..3]}); }
      return o2, t3, 0;
    }
    t2 := b.next.frame;
    OwnersInMemory(b.mem, o2, pml4, lo, hi);
    LinksFrame(b.mem[pml4][path[0]], t3);
    LinksFrame(b.mem[t3][path[1]], t2);
    owner' := NextTableGrown(b.mem, b.supply, o2, pml4, lo, hi, t2, path[2], flags, s);
    GrownTwice(m, owner, supply, b.mem, o2, b.supply, s.mem, owner', pml4, lo, hi);
    NewNodesTwice(owner, supply, o2, b.supply, two, owner', s.supply, {path[..3]});
    LinkedKept(b.mem, s.mem, pml4, path[0], flags);
    LinkedKept(b.mem, s.mem, t3, path[1], flags);
    GrownWalk(m, owner, Range(supply), s.mem, owner', pml4, lo, hi, path);
    OwnersInMemory(s.mem, owner', pml4, lo, hi);
    if s.next == NoFrameLeft {
      UnlinkedWalk3(s.mem, pml4, t3, t2, path);
      UnusedUnrecorded(s.mem, owner', t2, path[2]);
    } else {
      GrantedChain(s.mem, pml4, t3, t2, s.next.frame, path, flags);
    }
  }

  /** What mapping a page of the managed slots comes to: refused exactly when it is mapped; otherwise it
      translates to its frame and every other page as before, and frames went to the missing tables only. */
  ghost predicate PathMapped(m: Memory, supply: seq<nat>, owner: Owner, s: MapStep, owner': Owner, pml4: nat,
                             lo: nat, hi: nat, path: seq<nat>, w: Word)
  {
    && |path| == 4 && ValidPath(path)
    && TreeReady(s.mem, s.supply, owner', pml4, lo, hi) && (forall f :: f in s.supply ==> f in supply)
    && Grown(m, owner, Range(supply) + {w.frame}, s.mem, owner', pml4, lo, hi, path)
    && (s.result == Mapped || s.result == AlreadyMapped || s.result == NoFrame)
    && (s.result == AlreadyMapped <==> WalkTable(m, pml4, path).Some?)
    && WalkTable(s.mem, pml4, path) == (if s.result == Mapped then Some(w) else WalkTable(m, pml4, path))
    && (s.result == NoFrame ==> s.supply == [] && !Recorded(owner', path[..3]) && !Recorded(owner', path))
    && (s.result != NoFrame ==> Linked(s.mem, pml4, path[0], w.lo) && Granted(s.mem, pml4, path, w.lo))
    && (Linked(m, pml4, path[0], w.lo) ==> pml4 in m && pml4 in s.mem && s.mem[pml4] == m[pml4])
    && (s.result == AlreadyMapped && Granted(m, pml4, path, w.lo) ==>
          s.mem == m && owner' == owner && s.supply == supply)
    && |owner'| + |s.supply| == |owner| + |supply| + (if s.result == Mapped then 1 else 0)
    && owner.Values <= owner'.Values <= owner.Values + Prefixes(path)
    && (s.result == Mapped ==> Recorded(owner', path))
  }

  /** A page of the managed slots, and a frame for it that is neither in the tree nor to be handed out. */
  ghost predicate CanMap(m: Memory, supply: seq<nat>, owner: Owner, pml4: nat, lo: nat, hi: nat, path: seq<nat>,
                         frame: nat)
  {
    && TreeReady(m, supply, owner, pml4, lo, hi) && FullPath(path, lo, hi)
    && (WalkTable(m, pml4, path).None? ==> frame in m && frame !in owner && frame !in supply)
  }

  lemma {:induction false} MapPathGrown(m: Memory, supply: seq<nat>, owner: Owner, pml4: nat, lo: nat, hi: nat,
                                        path: seq<nat>, w: Word, s: MapStep)
    returns (owner': Owner)
    requires CanMap(m, supply, owner, pml4, lo, hi, path, w.frame) && pml4 in m && Bit(w.lo, PRESENT)
    requires s == MapPath(m, supply, pml4, path, w.frame, w.lo, w.hi)
    ensures PathMapped(m, supply, owner, s, owner', pml4, lo, hi, path, w)
  {
    hide Owned, Grown, ValidSupply, WalkTable, Tree, Recorded, Granted, NewNodes, Linked, Links, Prefixes, Chain,
         ReachTable, PathMapped, Unused;
    var c := ReachTable(m, supply, pml4, path, w.lo);
    var t3, t2;
    owner', t3, t2 := ReachTableGrown(m, supply, owner, pml4, lo, hi, path, w.lo, c);
    if c.next == NoFrameLeft {
      MapStopped(m, supply, owner, pml4, lo, hi, path, w, c, owner');
      return;
    }
    var table := c.next.frame;
    WalkAlong(c.mem, pml4, t3, t2, table, path);
    ChainEnds(c.mem, pml4, t3, t2, table, path);
    if !Unused(c.mem[table][path[3]]) {
      MapTaken(m, supply, owner, pml4, lo, hi, path, w, c, owner');
    } else {
      owner' := MapLast(m, supply, owner, pml4, lo, hi, path, w, c, owner', t3, t2);
    }
  }

  /** The tables on the way are not all there, and no frame is left for the next. */
  lemma MapStopped(m: Memory, supply: seq<nat>, owner: Owner, pml4: nat, lo: nat, hi: nat, path: seq<nat>, w: Word,
                   c: NextStep, owner': Owner)
    requires FullPath(path, lo, hi) && TreeReady(c.mem, c.supply, owner', pml4, lo, hi)
    requires Grown(m, owner, Range(supply), c.mem, owner', pml4, lo, hi, [])
    requires NewNodes(owner, supply, owner', c.supply, {path[..1]} + {path[..2]} + {path[..3]})
    requires WalkTable(c.mem, pml4, path) == WalkTable(m, pml4, path) == None
    requires Linked(m, pml4, path[0], w.lo) ==> pml4 in c.mem && c.mem[pml4] == m[pml4]
    requires c.supply == [] && !Recorded(owner', path[..3])
    ensures PathMapped(m, supply, owner, MapStep(c.mem, c.supply, NoFrame), owner', pml4, lo, hi, path, w)
  {
    hide Owned, Grown, ValidSupply, WalkTable, Recorded, Granted, Prefixes, NewNodes;
    NodesOnPath(owner, supply, owner', c.supply, path);
    assert path[..|path| - 1] == path[..3];
    GrownWeaken(m, owner, Range(supply), c.mem, owner', pml4, lo, hi, Range(supply) + {w.frame}, path);
    NotAbove(c.mem, owner', path);
  }

  /** The page is mapped already. */
  lemma MapTaken(m: Memory, supply: seq<nat>, owner: Owner, pml4: nat, lo: nat, hi: nat, path: seq<nat>, w: Word,
                 c: NextStep, owner': Owner)
    requires FullPath(path, lo, hi) && TreeReady(c.mem, c.supply, owner', pml4, lo, hi)
    requires Grown(m, owner, Range(supply), c.mem, owner', pml4, lo, hi, [])
    requires NewNodes(owner, supply, owner', c.supply, {path[..1]} + {path[..2]} + {path[..3]})
    requires WalkTable(c.mem, pml4, path) == WalkTable(m, pml4, path) && WalkTable(m, pml4, path).Some?
    requires Linked(m, pml4, path[0], w.lo) ==> pml4 in c.mem && c.mem[pml4] == m[pml4]
    requires Linked(c.mem, pml4, path[0], w.lo) && Granted(c.mem, pml4, path, w.lo)
    requires Granted(m, pml4, path, w.lo) ==> c.mem == m && owner' == owner && c.supply == supply
    requires forall f :: f in c.supply ==> f in supply
    ensures PathMapped(m, supply, owner, MapStep(c.mem, c.supply, AlreadyMapped), owner', pml4, lo, hi, path, w)
  {
    hide TreeReady, Grown, WalkTable, Recorded, Granted, Prefixes, NewNodes;
    NodesOnPath(owner, supply, owner', c.supply, path);
    GrownWeaken(m, owner, Range(supply), c.mem, owner', pml4, lo, hi, Range(supply) + {w.frame}, path);
  }

  /** All tables are there, and the entry of the page is free. */
  lemma MapLast(m: Memory, supply: seq<nat>, owner: Owner, pml4: nat, lo: nat, hi: nat, path: seq<nat>, w: Word,
                c: NextStep, o1: Owner, t3: nat, t2: nat)
    returns (owner': Owner)
    requires FullPath(path, lo, hi) && TreeReady(c.mem, c.supply, o1, pml4, lo, hi) && c.next.Table? && pml4 in m
    requires Grown(m, owner, Range(supply), c.mem, o1, pml4, lo, hi, [])
    requires NewNodes(owner, supply, o1, c.supply, {path[..1]} + {path[..2]} + {path[..3]})
    requires WalkTable(m, pml4, path) == None && Bit(w.lo, PRESENT)
    requires Linked(m, pml4, path[0], w.lo) ==> pml4 in c.mem && c.mem[pml4] == m[pml4]
    requires Linked(c.mem, pml4, path[0], w.lo) && Granted(c.mem, pml4, path, w.lo)
    requires Chain(c.mem, pml4, t3, t2, c.next.frame, path) && c.next.frame in c.mem
    requires pml4 in o1 && t3 in o1 && t2 in o1 && c.next.frame in o1 && o1[pml4] == [] && o1[t3] == path[..1]
    requires o1[t2] == path[..2] && o1[c.next.frame] == path[..3] && Unused(c.mem[c.next.frame][path[3]])
    requires w.frame in m && w.frame !in owner && w.frame !in supply
    requires forall f :: f in c.supply ==> f in supply
    ensures PathMapped(m, supply, owner, MapStep(WriteEntry(c.mem, c.next.frame, path[3], w), c.supply, Mapped),
                       owner', pml4, lo, hi, path, w)
  {
    hide TreeReady, Grown, WalkTable, Recorded, Granted, Prefixes, NewNodes, Linked, Chain, Unused;
    NodesOnPath(owner, supply, o1, c.supply, path);
    NewPage(m, owner, Range(supply), c.mem, o1, pml4, lo, hi, w.frame);
    LinkLast(c.mem, o1, c.supply, pml4, lo, hi, t3, t2, c.next.frame, path, w, w.lo);
    owner' := o1[w.frame := path];
    var e := WriteEntry(c.mem, c.next.frame, path[3], w);
    GrownTransitive(m, owner, Range(supply), c.mem, o1, {w.frame}, e, owner', pml4, lo, hi, path);
  }

  /** What a caller that succeeds makes of it. */
  lemma MappedNow(m: Memory, supply: seq<nat>, owner: Owner, s: MapStep, owner': Owner, pml4: nat, lo: nat, hi: nat,
                  path: seq<nat>, w: Word)
    requires PathMapped(m, supply, owner, s, owner', pml4, lo, hi, path, w)
    ensures TreeReady(s.mem, s.supply, owner', pml4, lo, hi) && forall f :: f in s.supply ==> f in supply
    ensures Grown(m, owner, Range(supply) + {w.frame}, s.mem, owner', pml4, lo, hi, path)
    ensures |path| == 4 && ValidPath(path) && (s.result == Mapped ==> WalkTable(s.mem, pml4, path) == Some(w))
    ensures s.result == NoFrame ==> s.supply == []
    ensures s.result == AlreadyMapped <==> WalkTable(m, pml4, path).Some?
    ensures s.result == Mapped || s.result == AlreadyMapped || s.result == NoFrame
  {
    hide TreeReady, Grown, Linked, Granted, Recorded, Prefixes;
  }

  // ---- The mapping code ----

  class OffsetPageTable {
    const phys: PhysicalMemory
    const pml4: nat
    const lo: nat
    const hi: nat
    ghost var owner: Owner

    constructor (p: PhysicalMemory, root: nat, l: nat, h: nat)
      requires root in p.mem && root !in p.supply && ValidSupply(p.mem, p.supply) && l <= h <= 512
      requires forall i :: l <= i < h ==> p.mem[root][i] == ZERO
      ensures phys == p && pml4 == root && lo == l && hi == h && owner == map[root := []] && Valid()
    {
      phys, pml4, lo, hi, owner := p, root, l, h, map[root := []];
    }

    /** A mapper for slots that are in use, with the tree below them. */
    constructor Over(p: PhysicalMemory, root: nat, l: nat, h: nat, ghost tree: Owner)
      requires TreeReady(p.mem, p.supply, tree, root, l, h)
      ensures phys == p && pml4 == root && lo == l && hi == h && owner == tree && Valid()
    {
      phys, pml4, lo, hi, owner := p, root, l, h, tree;
    }

    ghost predicate Valid()
      reads this, phys
    {
      TreeReady(phys.mem, phys.supply, owner, pml4, lo, hi)
    }

    /** The least the code needs: the PML4 is there, and the allocator gives existing frames. */
    ghost predicate Sound()
      reads phys
    {
      pml4 in phys.mem && ValidSupply(phys.mem, phys.supply)
    }

    /** `create_next_table`. */
    method CreateNextTable(table: nat, index: nat, flags: nat) returns (next: Next)
      requires Sound() && table in phys.mem && index < 512 && flags < TWO_12 && Bit(flags, PRESENT)
      modifies phys
      ensures NextStep(phys.mem, phys.supply, next) == NextTable(old(phys.mem), old(phys.supply), table, index, flags)
      ensures Sound()
    {
      hide ValidSupply;
      var entry := phys.mem[table][index];
      if Unused(entry) {
        if phys.supply == [] {
          return NoFrameLeft;
        }
        FirstInSupply(phys.mem, phys.supply);
        var f := phys.supply[0];
        phys.supply := phys.supply[1..];
        phys.mem := WriteEntry(phys.mem, table, index, Word(ParentFlags(flags), f, 0));
        phys.mem := phys.mem[f := EmptyTable()];
        return Table(f);
      }
      if !HasLow(entry.lo, flags) {
        phys.mem := WriteEntry(phys.mem, table, index, Word(OrLow(entry.lo, flags), entry.frame, entry.hi));
      }
      return if Bit(entry.lo, HUGE) then HugeParent
             else if entry.frame in phys.mem then Table(entry.frame) else Missing;
    }

    /** `map_to`, for any page and any tables. */
    method MapTo(path: seq<nat>, frame: nat, flags: nat, flagsHi: nat) returns (r: MapResult)
      requires Sound() && |path| == 4 && ValidPath(path)
      requires frame < TWO_40 && flags < TWO_12 && flagsHi < TWO_12 && Bit(flags, PRESENT)
      modifies this`owner, phys
      ensures MapStep(phys.mem, phys.supply, r)
              == MapPath(old(phys.mem), old(phys.supply), pml4, path, frame, flags, flagsHi)
      ensures Sound()
      ensures old(CanMap(phys.mem, phys.supply, owner, pml4, lo, hi, path, frame)) ==>
                PathMapped(old(phys.mem), old(phys.supply), old(owner), MapStep(phys.mem, phys.supply, r), owner,
                           pml4, lo, hi, path, Word(flags, frame, flagsHi))
    {
      hide ValidSupply, CanMap, PathMapped, NextTable;
      ghost var m, supply := phys.mem, phys.supply;
      r := MapThrough(path, frame, flags, flagsHi);
      if CanMap(m, supply, owner, pml4, lo, hi, path, frame) {
        owner := MapPathGrown(m, supply, owner, pml4, lo, hi, path, Word(flags, frame, flagsHi),
                              MapStep(phys.mem, phys.supply, r));
      }
    }

    /** The steps of `map_to`: three tables, made where missing, and the entry of the last one. */
    method MapThrough(path: seq<nat>, frame: nat, flags: nat, flagsHi: nat) returns (r: MapResult)
      requires Sound() && |path| == 4 && ValidPath(path)
      requires frame < TWO_40 && flags < TWO_12 && flagsHi < TWO_12 && Bit(flags, PRESENT)
      modifies phys
      ensures MapStep(phys.mem, phys.supply, r)
              == MapPath(old(phys.mem), old(phys.supply), pml4, path, frame, flags, flagsHi)
      ensures Sound()
    {
      hide ValidSupply, NextTable;
      var a := CreateNextTable(pml4, path[0], flags);
      if !a.Table? {
        return Refusal(a);
      }
      var b := CreateNextTable(a.frame, path[1], flags);
      if !b.Table? {
        return Refusal(b);
      }
      var c := CreateNextTable(b.frame, path[2], flags);
      if !c.Table? {
        return Refusal(c);
      }
      if !Unused(phys.mem[c.frame][path[3]]) {
        return AlreadyMapped;
      }
      phys.mem := WriteEntry(phys.mem, c.frame, path[3], Word(flags, frame, flagsHi));
      return Mapped;
    }
  }
}
