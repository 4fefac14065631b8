/** The bitmap of a record page: bit pos is bit 7 - pos % 8 of byte pos / 8. */
module Bitmaps {

  const BITMAP_WIDTH := 8
  const BITMAP_HIGHEST_BIT: bv8 := 0x80

  type Bits = seq<bv8>

  function Bit(pos: nat): bv8 {
    BITMAP_HIGHEST_BIT >> (pos % BITMAP_WIDTH)
  }

  /** Positions inside a bitmap. */
  predicate InBits(bm: Bits, pos: int) {
    0 <= pos < BITMAP_WIDTH * |bm|
  }

  predicate IsSet(bm: Bits, pos: int)
    requires InBits(bm, pos)
  {
    bm[pos / BITMAP_WIDTH] & Bit(pos) != 0
  }

  function Set(bm: Bits, pos: int): (r: Bits)
    requires InBits(bm, pos)
    ensures |r| == |bm|
  {
    bm[pos / BITMAP_WIDTH := bm[pos / BITMAP_WIDTH] | Bit(pos)]
  }

  function Reset(bm: Bits, pos: int): (r: Bits)
    requires InBits(bm, pos)
    ensures |r| == |bm|
  {
    bm[pos / BITMAP_WIDTH := bm[pos / BITMAP_WIDTH] & !Bit(pos)]
  }

  function Init(size: nat): (r: Bits)
    ensures |r| == size
  {
    seq(size, i => 0)
  }

  lemma BitsDiffer(p: nat, q: nat)
    ensures Bit(p) != 0
    ensures p % BITMAP_WIDTH != q % BITMAP_WIDTH ==> Bit(p) & Bit(q) == 0
    ensures p % BITMAP_WIDTH == q % BITMAP_WIDTH ==> Bit(p) == Bit(q)
  {
    BitValue(p);
    BitValue(q);
  }

  lemma BitValue(p: nat)
    ensures Bit(p) == match p % BITMAP_WIDTH
                      case 0 => 128 case 1 => 64 case 2 => 32 case 3 => 16 case 4 => 8 case 5 => 4 case 6 => 2 case _ => 1
  {
    match p % BITMAP_WIDTH
    case 0 => case 1 => case 2 => case 3 => case 4 => case 5 => case 6 => case _ =>
  }

  lemma MaskFacts(x: bv8, a: bv8, b: bv8)
    ensures a != 0 ==> (x | a) & a != 0
    ensures (x & !a) & a == 0
    ensures a & b == 0 ==> (x | a) & b == x & b && (x & !a) & b == x & b
  {
  }

  /** Setting a bit changes that bit only. */
  lemma SetOne(bm: Bits, p: int, q: int)
    requires InBits(bm, p) && InBits(bm, q)
    ensures IsSet(Set(bm, p), q) <==> q == p || IsSet(bm, q)
  {
    BitsDiffer(p, q);
    MaskFacts(bm[p / BITMAP_WIDTH], Bit(p), Bit(q));
  }

  lemma ResetOne(bm: Bits, p: int, q: int)
    requires InBits(bm, p) && InBits(bm, q)
    ensures IsSet(Reset(bm, p), q) <==> q != p && IsSet(bm, q)
  {
    BitsDiffer(p, q);
    MaskFacts(bm[p / BITMAP_WIDTH], Bit(p), Bit(q));
  }

  lemma InitClear(size: nat, q: int)
    requires 0 <= q < BITMAP_WIDTH * size
    ensures InBits(Init(size), q) && !IsSet(Init(size), q)
  {
    assert Init(size)[q / BITMAP_WIDTH] == 0;
  }

  /** The first position after curr and below maxN whose bit has the given value, or maxN. */
  method NextBit(bit: bool, bm: Bits, maxN: int, curr: int) returns (r: int)
    requires -1 <= curr && 0 <= maxN <= BITMAP_WIDTH * |bm|
    ensures forall i :: curr < i < r && i < maxN ==> IsSet(bm, i) != bit
    ensures r == maxN || (curr < r < maxN && IsSet(bm, r) == bit)
  {
    hide IsSet;
    for i := curr + 1 to if curr + 1 < maxN then maxN else curr + 1
      invariant forall j :: curr < j < i && j < maxN ==> IsSet(bm, j) != bit
    {
      if IsSet(bm, i) == bit {
        return i;
      }
    }
    r := maxN;
  }

  /** Number of set bits among the first n. */
  ghost function Count(bm: Bits, n: nat): (c: nat)
    requires n <= BITMAP_WIDTH * |bm|
    ensures c <= n
  {
    if n == 0 then 0 else Count(bm, n - 1) + if IsSet(bm, n - 1) then 1 else 0
  }

  lemma {:induction false} CountSet(bm: Bits, n: nat, p: int)
    requires n <= BITMAP_WIDTH * |bm| && InBits(bm, p)
    ensures Count(Set(bm, p), n) == Count(bm, n) + if p < n && !IsSet(bm, p) then 1 else 0
  {
    hide IsSet, Set;
    if n > 0 {
      CountSet(bm, n - 1, p);
      SetOne(bm, p, n - 1);
    }
  }

  lemma {:induction false} CountReset(bm: Bits, n: nat, p: int)
    requires n <= BITMAP_WIDTH * |bm| && InBits(bm, p)
    ensures Count(Reset(bm, p), n) == Count(bm, n) - if p < n && IsSet(bm, p) then 1 else 0
  {
    hide IsSet, Reset;
    if n > 0 {
      CountReset(bm, n - 1, p);
      ResetOne(bm, p, n - 1);
    }
  }

  lemma {:induction false} CountInit(size: nat, n: nat)
    requires n <= BITMAP_WIDTH * size
    ensures Count(Init(size), n) == 0
  {
    hide IsSet, Init;
    if n > 0 {
      CountInit(size, n - 1);
      InitClear(size, n - 1);
    }
  }

  /** The count reaches n exactly when every bit is set. */
  lemma {:induction false} CountFull(bm: Bits, n: nat)
    requires n <= BITMAP_WIDTH * |bm|
    ensures Count(bm, n) == n <==> forall i :: 0 <= i < n ==> IsSet(bm, i)
  {
    hide IsSet;
    if n > 0 {
      CountFull(bm, n - 1);
    }
  }
}
