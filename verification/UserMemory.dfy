/** Bytes of physical frames, and user memory as seen through the page tables. */
module UserMemory {
  import opened Words
  import opened PageTables
  import opened CloneTables
  import opened AddressSpaces

  function FrameByte(t: Table, k: nat): Byte
    requires k < PAGE_SIZE
  {
    WordByte(t[k / 8], k % 8)
  }

  function StoreByte(t: Table, k: nat, b: Byte): (r: Table)
    requires k < PAGE_SIZE
    ensures forall j :: 0 <= j < PAGE_SIZE ==> FrameByte(r, j) == if j == k then b else FrameByte(t, j)
  {
    t[k / 8 := StoreWordByte(t[k / 8], k % 8, b)]
  }

  /** `copy_nonoverlapping` into one frame. */
  function StoreBytes(t: Table, offset: nat, data: seq<Byte>): (r: Table)
    requires offset + |data| <= PAGE_SIZE
    ensures forall j :: 0 <= j < PAGE_SIZE ==>
              FrameByte(r, j) == if offset <= j < offset + |data| then data[j - offset] else FrameByte(t, j)
    decreases |data|
  {
    if data == [] then t else StoreBytes(StoreByte(t, offset, data[0]), offset + 1, data[1..])
  }

  /** The byte a program reads at `va` in the address space of `pml4`. */
  function UserByte(m: Memory, pml4: nat, va: nat): Option<Byte> {
    match Translate(m, pml4, va)
    case None => None
    case Some(w) => if w.frame in m then Some(FrameByte(m[w.frame], va % PAGE_SIZE)) else None
  }

  lemma LowerPath(va: nat)
    requires va < LOWER_HALF_END
    ensures FullPath(PathOf(va), 0, 256)
  {}

  lemma UpperPath(va: nat)
    requires UPPER_HALF_START <= va < TWO_64
    ensures FullPath(PathOf(va), 256, 512) && va / 0x1_0000_0000_0000 == 0xFFFF
  {
    var q := va / 0x80_0000_0000;
    assert 512 * 0xFFFF + 256 <= q < 512 * 0x1_0000;
    assert q % 512 == q - 512 * 0xFFFF;
  }

  /** Writing a mapped page changes no walk. */
  lemma {:induction false} PageWriteWalk(m: Memory, owner: Owner, pml4: nat, lo: nat, hi: nat,
                                         page: nat, t: Table, g: nat, path: seq<nat>)
    requires Owned(m, owner, pml4, lo, hi) && page in owner && |owner[page]| == 4
    requires WalkFrom(owner, g, path, lo, hi)
    ensures WalkTable(m[page := t], g, path) == WalkTable(m, g, path)
    decreases |path|
  {
    var v := m[g][path[0]];
    if !Unused(v) && |path| > 1 {
      assert LeadsTo(owner, owner[g], path[0], v);
      PageWriteWalk(m, owner, pml4, lo, hi, page, t, v.frame, path[1..]);
    }
  }

  lemma PageWriteOwned(m: Memory, owner: Owner, pml4: nat, lo: nat, hi: nat, page: nat, t: Table)
    requires Owned(m, owner, pml4, lo, hi) && page in owner && |owner[page]| == 4
    ensures Owned(m[page := t], owner, pml4, lo, hi)
  {}

  /** The frame behind `va` is a page of the tree, recorded under the path of `va`. */
  lemma MappedPage(m: Memory, owner: Owner, pml4: nat, va: nat)
    requires Owned(m, owner, pml4, 0, 256) && va < LOWER_HALF_END && Translate(m, pml4, va).Some?
    ensures var f := Translate(m, pml4, va).value.frame; f in owner && owner[f] == PathOf(va) && f in m
  {
    LowerPath(va);
    RootWalk(m, owner, pml4, 0, 256, PathOf(va));
    WalkEndsAtOwner(m, owner, pml4, 0, 256, pml4, PathOf(va));
    assert owner[pml4] + PathOf(va) == PathOf(va);
  }

  /** Storing a run of bytes through the translation of one page changes exactly those bytes of
      user memory, and no translation. */
  lemma ChunkStored(m: Memory, owner: Owner, pml4: nat, va: nat, data: seq<Byte>)
    requires Owned(m, owner, pml4, 0, 256) && va < LOWER_HALF_END
    requires va % PAGE_SIZE + |data| <= PAGE_SIZE && Translate(m, pml4, va).Some?
    ensures var f := Translate(m, pml4, va).value.frame;
            && f in m && f in owner && |owner[f]| == 4
            && var e := m[f := StoreBytes(m[f], va % PAGE_SIZE, data)];
               && Owned(e, owner, pml4, 0, 256)
               && (forall x :: 0 <= x < LOWER_HALF_END ==> Translate(e, pml4, x) == Translate(m, pml4, x))
               && (forall x :: 0 <= x < LOWER_HALF_END ==>
                     UserByte(e, pml4, x) == if va <= x < va + |data| then Some(data[x - va]) else UserByte(m, pml4, x))
  {
    hide Owned, WalkTable, PathOf, StoreBytes;
    MappedPage(m, owner, pml4, va);
    var f := Translate(m, pml4, va).value.frame;
    var e := m[f := StoreBytes(m[f], va % PAGE_SIZE, data)];
    PageWriteOwned(m, owner, pml4, 0, 256, f, e[f]);
    forall x | 0 <= x < LOWER_HALF_END
      ensures Translate(e, pml4, x) == Translate(m, pml4, x)
      ensures UserByte(e, pml4, x) == if va <= x < va + |data| then Some(data[x - va]) else UserByte(m, pml4, x)
    {
      LowerPath(x);
      RootWalk(m, owner, pml4, 0, 256, PathOf(x));
      PageWriteWalk(m, owner, pml4, 0, 256, f, e[f], pml4, PathOf(x));
      PathIdentifiesPage(va, x);
      if Translate(m, pml4, x).Some? {
        MappedPage(m, owner, pml4, x);
      }
      if va / PAGE_SIZE == x / PAGE_SIZE {
        SamePageOffset(va, x, |data|);
      } else {
        OtherPage(va, x, |data|);
      }
    }
  }

  lemma SamePageOffset(va: nat, x: nat, n: nat)
    requires va / PAGE_SIZE == x / PAGE_SIZE && va % PAGE_SIZE + n <= PAGE_SIZE
    ensures va <= x < va + n <==> va % PAGE_SIZE <= x % PAGE_SIZE < va % PAGE_SIZE + n
    ensures x % PAGE_SIZE - va % PAGE_SIZE == x - va
  {}

  lemma OtherPage(va: nat, x: nat, n: nat)
    requires va / PAGE_SIZE != x / PAGE_SIZE && va % PAGE_SIZE + n <= PAGE_SIZE
    ensures !(va <= x < va + n)
  {}
}
