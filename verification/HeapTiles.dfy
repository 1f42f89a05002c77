/** The heap cut into tiles: an exact account of what every byte of it is used for. */
module HeapTiles {
  import opened HeapModel

  datatype Kind = Free | Cached(class_: nat) | Live(layout: Layout) | Stranded

  datatype Use = FreeBytes | CachedBytes | LiveBytes | StrandedBytes

  function UseOf(k: Kind): Use {
    match k
    case Free => FreeBytes
    case Cached(_) => CachedBytes
    case Live(_) => LiveBytes
    case Stranded => StrandedBytes
  }

  datatype Tile = Tile(start: nat, size: nat, kind: Kind)

  /** Consecutive non-empty tiles from `lo` to `hi`, without gap or overlap. */
  ghost predicate Tiling(ts: seq<Tile>, lo: nat, hi: nat) {
    if ts == [] then lo == hi
    else ts[0].start == lo && ts[0].size > 0 && Tiling(ts[1..], lo + ts[0].size, hi)
  }

  /** The bytes of a given use. */
  ghost function Bytes(ts: seq<Tile>, u: Use): nat {
    if ts == [] then 0 else Bytes(ts[1..], u) + if UseOf(ts[0].kind) == u then ts[0].size else 0
  }

  /** Every byte has exactly one use. */
  lemma {:induction false} TilingTotal(ts: seq<Tile>, lo: nat, hi: nat)
    requires Tiling(ts, lo, hi)
    ensures lo + Bytes(ts, FreeBytes) + Bytes(ts, CachedBytes) + Bytes(ts, LiveBytes) + Bytes(ts, StrandedBytes) == hi
  {
    if ts != [] {
      TilingTotal(ts[1..], lo + ts[0].size, hi);
    }
  }

  lemma {:induction false} TileInside(ts: seq<Tile>, lo: nat, hi: nat, t: Tile)
    requires Tiling(ts, lo, hi) && t in ts
    ensures lo <= t.start && t.size > 0 && t.start + t.size <= hi
  {
    if t != ts[0] {
      TileInside(ts[1..], lo + ts[0].size, hi, t);
    } else {
      TilingTotal(ts[1..], lo + ts[0].size, hi);
    }
  }

  ghost predicate Apart(t: Tile, u: Tile) {
    t.start + t.size <= u.start || u.start + u.size <= t.start
  }

  /** Two different tiles share no byte. */
  lemma {:induction false} TilesApart(ts: seq<Tile>, lo: nat, hi: nat, t: Tile, u: Tile)
    requires Tiling(ts, lo, hi) && t in ts && u in ts && t != u
    ensures Apart(t, u)
  {
    if t == ts[0] {
      TileInside(ts[1..], lo + ts[0].size, hi, u);
    } else if u == ts[0] {
      TileInside(ts[1..], lo + ts[0].size, hi, t);
    } else {
      TilesApart(ts[1..], lo + ts[0].size, hi, t, u);
    }
  }

  /** `ts` with tile `t` replaced by the tiles `mid`. */
  ghost function Replace(ts: seq<Tile>, t: Tile, mid: seq<Tile>): seq<Tile> {
    if ts == [] then []
    else if ts[0] == t then mid + ts[1..]
    else [ts[0]] + Replace(ts[1..], t, mid)
  }

  lemma {:induction false} TilingConcat(a: seq<Tile>, b: seq<Tile>, lo: nat, mid: nat, hi: nat)
    requires Tiling(a, lo, mid) && Tiling(b, mid, hi)
    ensures Tiling(a + b, lo, hi)
  {
    if a == [] {
      assert a + b == b;
    } else {
      TilingConcat(a[1..], b, lo + a[0].size, mid, hi);
      assert (a + b)[1..] == a[1..] + b;
    }
  }

  lemma {:induction false} BytesConcat(a: seq<Tile>, b: seq<Tile>, u: Use)
    ensures Bytes(a + b, u) == Bytes(a, u) + Bytes(b, u)
  {
    if a == [] {
      assert a + b == b;
    } else {
      BytesConcat(a[1..], b, u);
      assert (a + b)[1..] == a[1..] + b;
    }
  }

  /** Cutting a tile up leaves a tiling. */
  lemma {:induction false} ReplaceTiling(ts: seq<Tile>, t: Tile, mid: seq<Tile>, lo: nat, hi: nat)
    requires Tiling(ts, lo, hi) && t in ts && Tiling(mid, t.start, t.start + t.size)
    ensures Tiling(Replace(ts, t, mid), lo, hi)
  {
    if ts[0] == t {
      TilingConcat(mid, ts[1..], lo, lo + t.size, hi);
    } else {
      ReplaceTiling(ts[1..], t, mid, lo + ts[0].size, hi);
      var r := Replace(ts, t, mid);
      assert r[1..] == Replace(ts[1..], t, mid);
    }
  }

  lemma {:induction false} ReplaceBytes(ts: seq<Tile>, t: Tile, mid: seq<Tile>, u: Use)
    requires t in ts
    ensures Bytes(Replace(ts, t, mid), u) + Bytes([t], u) == Bytes(ts, u) + Bytes(mid, u)
  {
    assert Bytes([t], u) == if UseOf(t.kind) == u then t.size else 0;
    if ts[0] == t {
      BytesConcat(mid, ts[1..], u);
    } else {
      ReplaceBytes(ts[1..], t, mid, u);
      var r := Replace(ts, t, mid);
      assert r[1..] == Replace(ts[1..], t, mid);
    }
  }

  /** The tiles after cutting `t` up: the others, and the pieces. */
  lemma {:induction false} ReplaceMember(ts: seq<Tile>, t: Tile, mid: seq<Tile>, lo: nat, hi: nat, x: Tile)
    requires Tiling(ts, lo, hi) && t in ts
    ensures x in Replace(ts, t, mid) <==> (x in ts && x != t) || x in mid
  {
    if ts[0] == t {
      if x in ts[1..] {
        TileInside(ts[1..], lo + ts[0].size, hi, x);
      }
    } else {
      ReplaceMember(ts[1..], t, mid, lo + ts[0].size, hi, x);
      assert ts == [ts[0]] + ts[1..];
    }
  }

  lemma ReplaceMembers(ts: seq<Tile>, t: Tile, mid: seq<Tile>, lo: nat, hi: nat)
    requires Tiling(ts, lo, hi) && t in ts
    ensures forall x :: x in Replace(ts, t, mid) <==> (x in ts && x != t) || x in mid
  {
    forall x ensures x in Replace(ts, t, mid) <==> (x in ts && x != t) || x in mid {
      ReplaceMember(ts, t, mid, lo, hi, x);
    }
  }
}
