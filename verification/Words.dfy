/** 64-bit memory words, seen both as eight little-endian bytes and as page-table entries. */
module Words {

  const TWO_12: nat := 0x1000
  const TWO_40: nat := 0x100_0000_0000
  const TWO_52: nat := 0x10_0000_0000_0000
  const TWO_64: nat := 0x1_0000_0000_0000_0000

  type Byte = b: nat | b < 256

  datatype Option<+T> = None | Some(value: T)

  /** A word is kept cut into the three fields the MMU gives a page-table entry:
      flag bits 0..11, the frame number in bits 12..51, and flag bits 52..63. */
  datatype RawWord = Word(lo: nat, frame: nat, hi: nat)

  type Word = w: RawWord | w.lo < TWO_12 && w.frame < TWO_40 && w.hi < TWO_12 witness Word(0, 0, 0)

  const ZERO: Word := Word(0, 0, 0)

  // Bit positions of the page-table flags inside `lo` (and, for NO_EXECUTE, inside `hi`).
  const PRESENT: nat := 0
  const WRITABLE: nat := 1
  const USER: nat := 2
  const HUGE: nat := 7
  const BIT_9: nat := 9
  const NO_EXECUTE_HI: nat := 11

  predicate Bit(n: nat, k: nat)
    decreases k
  {
    if k == 0 then n % 2 == 1 else Bit(n / 2, k - 1)
  }

  /** The flags by their weight in the entry. */
  lemma FlagWeights(n: nat)
    ensures Bit(n, PRESENT) <==> n % 2 == 1
    ensures Bit(n, WRITABLE) <==> n / 2 % 2 == 1
    ensures Bit(n, USER) <==> n / 4 % 2 == 1
    ensures Bit(n, HUGE) <==> n / 128 % 2 == 1
    ensures Bit(n, BIT_9) <==> n / 512 % 2 == 1
    ensures Bit(n, NO_EXECUTE_HI) <==> n / 2048 % 2 == 1
  {
    hide Bit;
    LowBits(n);
    HugeBit(n);
    EightBits(n, 1);
    EightBits(n, 3);
    LowBits(n / 256);
    assert n / 256 / 2 == n / 512 && n / 256 / 8 == n / 2048;
  }

  lemma HugeBit(n: nat)
    ensures Bit(n, HUGE) <==> n / 128 % 2 == 1
  {
    hide Bit;
    FourBits(n, 3);
    LowBits(n / 16);
    assert n / 16 / 8 == n / 128;
  }

  lemma EightBits(n: nat, k: nat)
    ensures Bit(n, k + 8) == Bit(n / 256, k)
  {
    hide Bit;
    FourBits(n, k + 4);
    FourBits(n / 16, k);
    assert n / 16 / 16 == n / 256;
  }

  lemma LowBits(n: nat)
    ensures Bit(n, 0) <==> n % 2 == 1
    ensures Bit(n, 1) <==> n / 2 % 2 == 1
    ensures Bit(n, 2) <==> n / 4 % 2 == 1
    ensures Bit(n, 3) <==> n / 8 % 2 == 1
  {
    var a, b := n / 2, n / 4;
    assert a / 2 == b && b / 2 == n / 8;
    assert Bit(n, 1) == Bit(a, 0) && Bit(n, 2) == Bit(a, 1) && Bit(n, 3) == Bit(a, 2);
    assert Bit(a, 1) == Bit(b, 0) && Bit(a, 2) == Bit(b, 1);
  }

  lemma FourBits(n: nat, k: nat)
    ensures Bit(n, k + 4) == Bit(n / 16, k)
  {
    var a, b, c := n / 2, n / 4, n / 8;
    assert a / 2 == b && b / 2 == c && c / 2 == n / 16;
    assert Bit(n, k + 4) == Bit(a, k + 3) && Bit(a, k + 3) == Bit(b, k + 2);
    assert Bit(b, k + 2) == Bit(c, k + 1) && Bit(c, k + 1) == Bit(n / 16, k);
  }

  /** `n` with bit `k` set to `b`: the code's `insert`, `remove` and `|` on flags. */
  function WithBit(n: nat, k: nat, b: bool): (r: nat)
    decreases k
  {
    if k == 0 then n / 2 * 2 + (if b then 1 else 0)
    else n % 2 + 2 * WithBit(n / 2, k - 1, b)
  }

  lemma {:induction false} WithBitSetsOneBit(n: nat, k: nat, b: bool, j: nat)
    ensures Bit(WithBit(n, k, b), j) == if j == k then b else Bit(n, j)
    decreases k
  {
    if k > 0 && j > 0 {
      WithBitSetsOneBit(n / 2, k - 1, b, j - 1);
    }
  }

  lemma {:induction false} WithBitBelow(n: nat, k: nat, b: bool, width: nat)
    requires k < width && n < Pow2(width)
    ensures WithBit(n, k, b) < Pow2(width)
    decreases width
  {
    var p := Pow2(width - 1);
    assert Pow2(width) == 2 * p && n / 2 < p;
    if k > 0 {
      WithBitBelow(n / 2, k - 1, b, width - 1);
    }
  }

  function Pow2(n: nat): (p: nat)
    ensures p > 0
  {
    if n == 0 then 1 else 2 * Pow2(n - 1)
  }

  /** Setting or clearing one of the twelve low flags leaves a valid flag field. */
  function WithFlag(lo: nat, k: nat, b: bool): (r: nat)
    requires lo < TWO_12 && k < 12
    ensures r < TWO_12
    ensures forall j :: Bit(r, j) == if j == k then b else Bit(lo, j)
  {
    assert Pow2(12) == TWO_12 by { Pow2Of12(); }
    WithBitBelow(lo, k, b, 12);
    assert forall j :: Bit(WithBit(lo, k, b), j) == if j == k then b else Bit(lo, j) by {
      forall j ensures Bit(WithBit(lo, k, b), j) == if j == k then b else Bit(lo, j) {
        WithBitSetsOneBit(lo, k, b, j);
      }
    }
    WithBit(lo, k, b)
  }

  lemma Pow2Of12()
    ensures Pow2(12) == TWO_12
  {
    assert Pow2(6) == 64;
    assert Pow2(12) == 2 * 2 * 2 * 2 * 2 * 2 * Pow2(6);
  }

  // ---- The numeric and byte views ----

  function ToNat(w: Word): (n: nat)
    ensures n < TWO_64
  {
    w.lo + TWO_12 * w.frame + TWO_52 * w.hi
  }

  function FromNat(n: nat): (w: Word)
    requires n < TWO_64
    ensures ToNat(w) == n
  {
    Word(n % TWO_12, n / TWO_12 % TWO_40, n / TWO_52)
  }

  /** Little-endian byte `j` of a number. */
  function NatByte(n: nat, j: nat): (b: Byte)
    decreases j
  {
    if j == 0 then n % 256 else NatByte(n / 256, j - 1)
  }

  function SetNatByte(n: nat, j: nat, b: Byte): nat
    decreases j
  {
    if j == 0 then n / 256 * 256 + b else n % 256 + 256 * SetNatByte(n / 256, j - 1, b)
  }

  lemma {:induction false} SetNatByteGet(n: nat, j: nat, b: Byte, k: nat)
    ensures NatByte(SetNatByte(n, j, b), k) == if k == j then b else NatByte(n, k)
    decreases j
  {
    if j == 0 {
      SplitByte(b, n / 256);
    } else {
      var rest := SetNatByte(n / 256, j - 1, b);
      SplitByte(n % 256, rest);
      if k > 0 {
        SetNatByteGet(n / 256, j - 1, b, k - 1);
      }
    }
  }

  lemma SplitByte(b: Byte, q: nat)
    ensures (b + 256 * q) % 256 == b && (b + 256 * q) / 256 == q
  {}

  function Pow256(n: nat): (p: nat)
    ensures p > 0
  {
    if n == 0 then 1 else 256 * Pow256(n - 1)
  }

  lemma {:induction false} SetNatByteBelow(n: nat, j: nat, b: Byte, width: nat)
    requires j < width && n < Pow256(width)
    ensures SetNatByte(n, j, b) < Pow256(width)
    decreases width
  {
    var p := Pow256(width - 1);
    assert Pow256(width) == 256 * p && n / 256 < p;
    if j > 0 {
      SetNatByteBelow(n / 256, j - 1, b, width - 1);
    }
  }

  lemma Pow256Of8()
    ensures Pow256(8) == TWO_64
  {
    assert Pow256(4) == 0x1_0000_0000;
    assert Pow256(8) == 256 * 256 * 256 * 256 * Pow256(4);
  }

  /** Byte `j` of a word in memory. */
  function WordByte(w: Word, j: nat): (b: Byte)
    requires j < 8
  {
    NatByte(ToNat(w), j)
  }

  /** The word after a one-byte store at byte `j`: the other seven bytes stay. */
  function StoreWordByte(w: Word, j: nat, b: Byte): (r: Word)
    requires j < 8
    ensures forall k :: 0 <= k < 8 ==> WordByte(r, k) == if k == j then b else WordByte(w, k)
  {
    Pow256Of8();
    SetNatByteBelow(ToNat(w), j, b, 8);
    var n := SetNatByte(ToNat(w), j, b);
    assert forall k :: 0 <= k < 8 ==> NatByte(n, k) == if k == j then b else NatByte(ToNat(w), k) by {
      forall k | 0 <= k < 8 ensures NatByte(n, k) == if k == j then b else NatByte(ToNat(w), k) {
        SetNatByteGet(ToNat(w), j, b, k);
      }
    }
    FromNat(n)
  }
}
