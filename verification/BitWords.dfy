/** 64-bit words as sets of the positions of their one bits: what the bitwise
    operators, the shifted masks and the lowest-bit trick do to that set. */
module BitWords {

  function Range(lo: nat, hi: nat): (s: set<nat>)
    ensures forall k :: k in s <==> lo <= k < hi
    decreases hi
  {
    if hi <= lo then {} else Range(lo, hi - 1) + {hi - 1}
  }

  const ALL := Range(0, 64)

  type Word = w: set<nat> | w <= ALL

  function SymmetricDifference(a: Word, b: Word): Word { (a - b) + (b - a) }
  function Complement(a: Word): Word { ALL - a }

  // ---------------------------------------------------------------------
  // Positions, in the seven bits that a shift distance needs
  // ---------------------------------------------------------------------

  function At(j: nat): bv7
    requires j <= 64
  {
    j as bv7
  }

  lemma AtNat(k: nat)
    requires k <= 64
    ensures At(k) as nat == k
  {
  }

  lemma BvOrder(a: bv7, b: bv7)
    ensures (a as nat) < (b as nat) <==> a < b
    ensures a as nat == b as nat <==> a == b
  {
  }

  lemma BvNext(a: bv7)
    requires a < 64
    ensures (a + 1) as nat == a as nat + 1
  {
  }

  lemma Bv64()
    ensures (64 as bv7) as nat == 64
  {
  }

  lemma AtBound(k: nat)
    requires k <= 64
    ensures At(k) <= 64 && (k < 64 ==> At(k) < 64)
  {
    hide At;
    AtNat(k);
    Bv64();
    BvOrder(64, At(k));
    BvOrder(At(k), 64);
  }

  lemma AtNext(k: nat)
    requires k < 64
    ensures At(k + 1) == At(k) + 1
  {
    hide At;
    AtBound(k);
    AtNat(k);
    AtNat(k + 1);
    BvNext(At(k));
    BvOrder(At(k + 1), At(k) + 1);
  }

  lemma AtOrder(j: nat, k: nat)
    requires j < k <= 64
    ensures At(j) < At(k)
  {
    hide At;
    AtNat(j);
    AtNat(k);
    BvOrder(At(j), At(k));
  }

  predicate Bit(w: bv64, j: bv7) {
    j < 64 && (w >> j) & 1 == 1
  }

  /** The positions of the one bits. */
  function Bits(w: bv64): Word {
    set j | j in ALL && Bit(w, At(j))
  }

  // ---------------------------------------------------------------------
  // One bit at a time
  // ---------------------------------------------------------------------

  lemma AndBit(a: bv64, b: bv64, j: bv7)
    ensures Bit(a & b, j) <==> Bit(a, j) && Bit(b, j)
  {
  }

  lemma OrBit(a: bv64, b: bv64, j: bv7)
    ensures Bit(a | b, j) <==> Bit(a, j) || Bit(b, j)
  {
  }

  lemma XorBit(a: bv64, b: bv64, j: bv7)
    ensures Bit(a ^ b, j) <==> Bit(a, j) != Bit(b, j)
  {
  }

  lemma NotBit(a: bv64, j: bv7)
    requires j < 64
    ensures Bit(!a, j) <==> !Bit(a, j)
  {
  }

  lemma HighBit(k: bv7, j: bv7)
    requires k <= 64 && j < 64
    ensures Bit(ONES << k, j) <==> k <= j
  {
  }

  lemma OneBit(k: bv7, j: bv7)
    requires k < 64
    ensures Bit(1 << k, j) <==> j == k
  {
  }

  /** The mask of the low bits, which is all ones at k == 64 since 1 << 64 is 0. */
  lemma LowIsNotHigh(k: bv7)
    requires k <= 64
    ensures (1 << k) - 1 == !(ONES << k)
  {
  }

  /** The bit of w & -w is one of w, no other bit is left above it, and w has
      none below it. */
  lemma LowestBit(w: bv64, i: bv7, j: bv7)
    ensures Bit(w & (0 - w), j) ==> Bit(w, j)
    ensures i < j && Bit(w & (0 - w), j) ==> !Bit(w, i)
  {
  }

  lemma LowestIsShift(w: bv64, j: bv7)
    requires Bit(w & (0 - w), j)
    ensures w & (0 - w) == 1 << j
  {
  }

  lemma LowestNonzero(w: bv64)
    requires w != 0
    ensures w & (0 - w) != 0
  {
  }

  // ---------------------------------------------------------------------
  // The operators of the source
  // ---------------------------------------------------------------------

  const ONES: bv64 := 0xFFFF_FFFF_FFFF_FFFF

  function And(a: bv64, b: bv64): bv64 { a & b }
  function Or(a: bv64, b: bv64): bv64 { a | b }
  function Xor(a: bv64, b: bv64): bv64 { a ^ b }
  function Not(a: bv64): bv64 { !a }

  /** ^uint64(0) << k. */
  function High(k: nat): bv64
    requires k <= 64
  {
    ONES << At(k)
  }

  /** (uint64(1) << k) - 1. */
  function Low(k: nat): bv64
    requires k <= 64
  {
    (1 << At(k)) - 1
  }

  /** uint64(1) << k. */
  function One(k: nat): bv64
    requires k < 64
  {
    1 << At(k)
  }

  /** w & -w. */
  function Lowest(w: bv64): bv64 { w & (0 - w) }

  /** bits.OnesCount64. */
  function OnesCount(w: bv64): nat { |Bits(w)| }

  lemma AndBits(a: bv64, b: bv64)
    ensures Bits(And(a, b)) == Bits(a) * Bits(b)
  {
    hide Bit;
    hide At;
    forall j | j in ALL
      ensures Bit(a & b, At(j)) <==> Bit(a, At(j)) && Bit(b, At(j))
    {
      AndBit(a, b, At(j));
    }
  }

  lemma OrBits(a: bv64, b: bv64)
    ensures Bits(Or(a, b)) == Bits(a) + Bits(b)
  {
    hide Bit;
    hide At;
    forall j | j in ALL
      ensures Bit(a | b, At(j)) <==> Bit(a, At(j)) || Bit(b, At(j))
    {
      OrBit(a, b, At(j));
    }
  }

  lemma XorBits(a: bv64, b: bv64)
    ensures Bits(Xor(a, b)) == SymmetricDifference(Bits(a), Bits(b))
  {
    hide Bit;
    hide At;
    forall j: nat
      ensures j in Bits(Xor(a, b)) <==> j in SymmetricDifference(Bits(a), Bits(b))
    {
      if j in ALL { XorBit(a, b, At(j)); }
    }
  }

  lemma NotBits(a: bv64)
    ensures Bits(Not(a)) == Complement(Bits(a))
  {
    hide Bit;
    hide At;
    forall j | j in ALL
      ensures Bit(!a, At(j)) <==> !Bit(a, At(j))
    {
      AtBound(j);
      NotBit(a, At(j));
    }
  }

  lemma HighBits(k: nat)
    requires k <= 64
    ensures Bits(High(k)) == Range(k, 64)
  {
    hide Bit;
    hide At;
    AtBound(k);
    forall j | j in ALL
      ensures Bit(ONES << At(k), At(j)) <==> k <= j
    {
      AtBound(j);
      HighBit(At(k), At(j));
      if k < j { AtOrder(k, j); }
      if j < k { AtOrder(j, k); }
    }
  }

  lemma LowBits(k: nat)
    requires k <= 64
    ensures Bits(Low(k)) == Range(0, k)
  {
    hide Bits;
    AtBound(k);
    LowIsNotHigh(At(k));
    assert Low(k) == Not(High(k));
    NotBits(High(k));
    HighBits(k);
  }

  lemma OneBits(k: nat)
    requires k < 64
    ensures Bits(One(k)) == {k}
  {
    hide Bit;
    hide At;
    AtBound(k);
    forall j | j in ALL
      ensures Bit(1 << At(k), At(j)) <==> j == k
    {
      OneBit(At(k), At(j));
      if k < j { AtOrder(k, j); }
      if j < k { AtOrder(j, k); }
    }
  }

  lemma ZeroBits()
    ensures Bits(0) == {}
  {
  }

  /** A word without one bits from position k on is zero there. */
  lemma {:induction false} NoBits(w: bv64, k: nat)
    requires k <= 64 && forall j | k <= j < 64 :: !Bit(w, At(j))
    ensures w >> At(k) == 0
    decreases 64 - k
  {
    if k < 64 {
      NoBits(w, k + 1);
      AtNext(k);
      AtBound(k);
      assert !Bit(w, At(k));
      hide At;
      ShiftOnce(w, At(k));
    } else {
      ShiftAll(w);
    }
  }

  lemma ShiftOnce(w: bv64, k: bv7)
    requires k < 64 && w >> (k + 1) == 0 && !Bit(w, k)
    ensures w >> k == 0
  {
  }

  lemma ShiftAll(w: bv64)
    ensures w >> At(64) == 0
  {
  }

  lemma NonzeroBits(w: bv64)
    ensures w != 0 <==> Bits(w) != {}
  {
    if Bits(w) == {} {
      forall j | 0 <= j < 64
        ensures !Bit(w, At(j))
      {
        assert j !in Bits(w);
      }
      NoBits(w, 0);
    }
    if w == 0 { ZeroBits(); }
  }

  /** w & -w is the lowest bit of w. */
  lemma LowestIsOne(w: bv64) returns (j: nat)
    requires w != 0
    ensures j in Bits(w) && (forall i <- Bits(w) :: j <= i) && Lowest(w) == One(j)
  {
    hide Bit;
    hide At;
    LowestNonzero(w);
    NonzeroBits(Lowest(w));
    j :| j in Bits(Lowest(w));
    forall i <- Bits(w)
      ensures j <= i
    {
      LowestBit(w, At(i), At(j));
      if i < j { AtOrder(i, j); }
    }
    LowestBit(w, At(j), At(j));
    LowestIsShift(w, At(j));
  }

  lemma OneLessOne(j: nat)
    requires j < 64
    ensures One(j) - 1 == Low(j) && OnesCount(Low(j)) == j
  {
    LowBits(j);
    RangeCard(0, j);
    hide Bits;
  }

  /** Extracting the lowest bit: the ones below it are as many as its position,
      and removing it by exclusive or leaves the rest. */
  lemma LowestBits(w: bv64) returns (j: nat)
    requires w != 0
    ensures j in Bits(w) && (forall i <- Bits(w) :: j <= i)
    ensures OnesCount(Lowest(w) - 1) == j && Bits(Xor(w, Lowest(w))) == Bits(w) - {j}
  {
    j := LowestIsOne(w);
    hide Bits;
    hide Lowest;
    hide One;
    hide Low;
    hide Xor;
    OneLessOne(j);
    OneBits(j);
    XorBits(w, One(j));
  }

  lemma {:induction false} RangeCard(lo: nat, hi: nat)
    requires lo <= hi
    ensures |Range(lo, hi)| == hi - lo
  {
    if lo < hi { RangeCard(lo, hi - 1); }
  }
}
