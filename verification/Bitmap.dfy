/** The bitmap of pkg/bitmap: blocks of 64 bits changed by masks, and a count of
    the ones that is kept up to date by counting only the blocks that change. */
module Bitmap {
  import opened BitWords

  const LIMIT32 := 0x1_0000_0000
  const LIMIT64 := 0x1_0000_0000_0000_0000
  const MAX_ENTRY := 0x7fff_ffff

  // ---------------------------------------------------------------------
  // What a bitmap denotes
  // ---------------------------------------------------------------------

  predicate Has(blocks: seq<Word>, i: nat) {
    i / 64 < |blocks| && i % 64 in blocks[i / 64]
  }

  function Shifted(w: set<nat>, base: nat): set<nat> {
    set j <- w :: base + j
  }

  ghost function Members(blocks: seq<Word>): set<nat> {
    if blocks == [] then {}
    else var k := |blocks| - 1; Members(blocks[..k]) + Shifted(blocks[k], 64 * k)
  }

  function Total(blocks: seq<Word>): nat {
    if blocks == [] then 0
    else var k := |blocks| - 1; Total(blocks[..k]) + |blocks[k]|
  }

  lemma {:induction false} MembersHas(blocks: seq<Word>, i: nat)
    ensures i in Members(blocks) <==> Has(blocks, i)
  {
    if blocks != [] {
      var k := |blocks| - 1;
      MembersHas(blocks[..k], i);
      InShifted(blocks[k], k, i);
    }
  }

  lemma InShifted(w: Word, k: nat, i: nat)
    ensures i in Shifted(w, 64 * k) <==> i / 64 == k && i % 64 in w
  {
    if i / 64 == k && i % 64 in w { assert i == 64 * k + i % 64; }
    if i in Shifted(w, 64 * k) {
      var j :| j in w && i == 64 * k + j;
      assert j in ALL;
    }
  }

  lemma {:induction false} ShiftedCard(w: set<nat>, base: nat)
    ensures |Shifted(w, base)| == |w|
  {
    if w != {} {
      var j :| j in w;
      ShiftedCard(w - {j}, base);
      assert w == (w - {j}) + {j};
      forall x
        ensures x in Shifted(w, base) <==> x in Shifted(w - {j}, base) + {base + j}
      {
        if x in Shifted(w, base) && x != base + j {
          var y :| y in w && x == base + y;
          assert y in w - {j};
        }
      }
      assert Shifted(w, base) == Shifted(w - {j}, base) + {base + j};
    }
  }

  /** The sum of the words' counts is the number of members. */
  lemma {:induction false} TotalIsCard(blocks: seq<Word>)
    ensures Total(blocks) == |Members(blocks)|
  {
    if blocks != [] {
      var k := |blocks| - 1;
      TotalIsCard(blocks[..k]);
      ShiftedCard(blocks[k], 64 * k);
      forall i | i in Members(blocks[..k])
        ensures i !in Shifted(blocks[k], 64 * k)
      {
        MembersHas(blocks[..k], i);
        InShifted(blocks[k], k, i);
      }
      assert Members(blocks[..k]) !! Shifted(blocks[k], 64 * k);
    }
  }

  // ---------------------------------------------------------------------
  // Counting some of the blocks
  // ---------------------------------------------------------------------

  /** The ones in blocks lo to hi - 1. */
  function Count(blocks: seq<Word>, lo: nat, hi: nat): nat
    requires hi <= |blocks|
    decreases hi
  {
    if hi <= lo then 0 else Count(blocks, lo, hi - 1) + |blocks[hi - 1]|
  }

  lemma {:induction false} TotalIsCount(blocks: seq<Word>, hi: nat)
    requires hi <= |blocks|
    ensures Total(blocks[..hi]) == Count(blocks, 0, hi)
  {
    if hi > 0 {
      TotalIsCount(blocks, hi - 1);
      assert blocks[..hi][..hi - 1] == blocks[..hi - 1];
    }
  }

  lemma {:induction false} CountSplits(blocks: seq<Word>, lo: nat, mid: nat, hi: nat)
    requires lo <= mid <= hi <= |blocks|
    ensures Count(blocks, lo, hi) == Count(blocks, lo, mid) + Count(blocks, mid, hi)
  {
    if mid < hi { CountSplits(blocks, lo, mid, hi - 1); }
  }

  lemma {:induction false} CountSame(a: seq<Word>, b: seq<Word>, lo: nat, hi: nat)
    requires hi <= |a| == |b| && forall k | lo <= k < hi :: a[k] == b[k]
    ensures Count(a, lo, hi) == Count(b, lo, hi)
  {
    if lo < hi { CountSame(a, b, lo, hi - 1); }
  }

  /** Only blocks lo to hi - 1 differ: the totals differ as their counts do. */
  lemma TotalMoves(a: seq<Word>, b: seq<Word>, lo: nat, hi: nat)
    requires lo <= hi <= |a| == |b| && forall k | 0 <= k < |a| && !(lo <= k < hi) :: a[k] == b[k]
    ensures Total(b) - Total(a) == Count(b, lo, hi) - Count(a, lo, hi)
  {
    var n := |a|;
    assert a[..n] == a && b[..n] == b;
    TotalIsCount(a, n);
    TotalIsCount(b, n);
    CountSplits(a, 0, lo, n);
    CountSplits(a, lo, hi, n);
    CountSplits(b, 0, lo, n);
    CountSplits(b, lo, hi, n);
    CountSame(a, b, 0, lo);
    CountSame(a, b, hi, n);
  }

  lemma {:induction false} CountFits(blocks: seq<Word>, lo: nat, hi: nat)
    requires lo <= hi <= |blocks|
    ensures Count(blocks, lo, hi) <= 64 * (hi - lo)
  {
    if lo < hi {
      CountFits(blocks, lo, hi - 1);
      WordCard(blocks[hi - 1]);
    }
  }

  lemma TotalFits(blocks: seq<Word>)
    ensures Total(blocks) <= 64 * |blocks|
  {
    assert blocks[..|blocks|] == blocks;
    TotalIsCount(blocks, |blocks|);
    CountFits(blocks, 0, |blocks|);
  }

  // ---------------------------------------------------------------------
  // Keeping the count by counting some of the blocks
  // ---------------------------------------------------------------------

  /** numOnes + uint32(to - from) in uint32 arithmetic, where the difference is
      taken in uint64 and may wrap around. */
  function Adjusted(numOnes: int, from: int, to: int): nat {
    (numOnes + ((to - from) % LIMIT64) % LIMIT32) % LIMIT32
  }

  lemma ModMod(d: int)
    ensures (d % LIMIT64) % LIMIT32 == d % LIMIT32
  {
    var q := d / LIMIT64;
    assert d == q * LIMIT64 + d % LIMIT64;
    assert q * LIMIT64 == (q * LIMIT32) * LIMIT32;
  }

  lemma ModShift(x: int, q: int)
    ensures (x + q * LIMIT32) % LIMIT32 == x % LIMIT32
  {
  }

  /** The wrapping subtraction and addition are right modulo 2^32. */
  lemma AdjustedRight(total: int, from: int, to: int)
    ensures Adjusted(total % LIMIT32, from, to) == (total + to - from) % LIMIT32
  {
    ModMod(to - from);
    var p, q := total / LIMIT32, (to - from) / LIMIT32;
    var x := total % LIMIT32 + (to - from) % LIMIT32;
    assert total == p * LIMIT32 + total % LIMIT32 && to - from == q * LIMIT32 + (to - from) % LIMIT32;
    assert total + to - from == x + (p + q) * LIMIT32;
    ModShift(x, p + q);
  }

  /** The ones outside blocks lo to hi - 1. */
  function Outside(blocks: seq<Word>, lo: nat, hi: nat): nat
    requires lo <= hi <= |blocks|
  {
    Count(blocks, 0, lo) + Count(blocks, hi, |blocks|)
  }

  lemma TotalParts(blocks: seq<Word>, lo: nat, hi: nat)
    requires lo <= hi <= |blocks|
    ensures Total(blocks) == Outside(blocks, lo, hi) + Count(blocks, lo, hi)
    ensures Outside(blocks, lo, hi) <= 64 * (|blocks| - (hi - lo))
  {
    hide Count;
    var n := |blocks|;
    assert blocks[..n] == blocks;
    TotalIsCount(blocks, n);
    CountSplits(blocks, 0, lo, n);
    CountSplits(blocks, lo, hi, n);
    CountFits(blocks, 0, lo);
    CountFits(blocks, hi, n);
  }

  lemma ModEqual(x: nat, y: nat, c: nat)
    requires x < LIMIT32 && y < LIMIT32
    ensures (x + c) % LIMIT32 == (y + c) % LIMIT32 <==> x == y
  {
    var p, q := (x + c) / LIMIT32, (y + c) / LIMIT32;
    assert x + c == p * LIMIT32 + (x + c) % LIMIT32 && y + c == q * LIMIT32 + (y + c) % LIMIT32;
    if (x + c) % LIMIT32 == (y + c) % LIMIT32 {
      assert x - y == (p - q) * LIMIT32;
    }
  }

  /** Adjusting the count by blocks lo to hi - 1 alone is right if and only if the
      other blocks have as many ones as before. */
  lemma Recount(a: seq<Word>, b: seq<Word>, lo: nat, hi: nat)
    requires lo < hi <= |a| == |b| && 64 * |a| <= LIMIT32
    ensures Adjusted(Total(a) % LIMIT32, Count(a, lo, hi), Count(b, lo, hi)) == Total(b) % LIMIT32
            <==> Outside(a, lo, hi) == Outside(b, lo, hi)
  {
    hide Count;
    hide Total;
    hide Outside;
    hide Adjusted;
    TotalParts(a, lo, hi);
    TotalParts(b, lo, hi);
    AdjustedRight(Total(a), Count(a, lo, hi), Count(b, lo, hi));
    ModEqual(Outside(a, lo, hi), Outside(b, lo, hi), Count(b, lo, hi));
  }

  lemma OutsideSame(a: seq<Word>, b: seq<Word>, lo: nat, hi: nat)
    requires lo <= hi <= |a| == |b| && forall k | 0 <= k < |a| && !(lo <= k < hi) :: a[k] == b[k]
    ensures Outside(a, lo, hi) == Outside(b, lo, hi)
  {
    CountSame(a, b, 0, lo);
    CountSame(a, b, hi, |a|);
  }

  // ---------------------------------------------------------------------
  // Ranges of bits, block by block
  // ---------------------------------------------------------------------

  /** The positions in block k of the bits from begin up to end. */
  function InBlock(k: nat, begin: nat, end: nat): (w: Word)
    ensures forall j :: j in w <==> 0 <= j < 64 && begin <= 64 * k + j < end
  {
    set j | j in ALL && begin <= 64 * k + j < end
  }

  ghost predicate Flipped(a: seq<Word>, b: seq<Word>, begin: nat, end: nat) {
    |a| == |b| && forall k | 0 <= k < |a| :: b[k] == SymmetricDifference(a[k], InBlock(k, begin, end))
  }

  ghost predicate Cleared(a: seq<Word>, b: seq<Word>, begin: nat, end: nat) {
    |a| == |b| && forall k | 0 <= k < |a| :: b[k] == a[k] - InBlock(k, begin, end)
  }

  /** Flipping by blocks changes exactly the bits in the range. */
  lemma FlippedBits(a: seq<Word>, b: seq<Word>, begin: nat, end: nat, i: nat)
    requires Flipped(a, b, begin, end)
    ensures Has(b, i) <==> if begin <= i < end && i / 64 < |a| then !Has(a, i) else Has(a, i)
  {
    assert i == 64 * (i / 64) + i % 64;
  }

  lemma ClearedBits(a: seq<Word>, b: seq<Word>, begin: nat, end: nat, i: nat)
    requires Cleared(a, b, begin, end)
    ensures Has(b, i) <==> Has(a, i) && !(begin <= i < end)
  {
    assert i == 64 * (i / 64) + i % 64;
  }

  /** Blocks outside the range stay as they are. */
  lemma OutsideRange(a: seq<Word>, b: seq<Word>, begin: nat, end: nat, lo: nat, hi: nat)
    requires Flipped(a, b, begin, end) || Cleared(a, b, begin, end)
    requires lo <= begin / 64 && end <= 64 * hi
    ensures forall k | 0 <= k < |a| && !(lo <= k < hi) :: a[k] == b[k]
  {
    forall k | 0 <= k < |a| && !(lo <= k < hi)
      ensures a[k] == b[k]
    {
      assert InBlock(k, begin, end) == {};
    }
  }

  /** What the masks of flipRange do to one block. */
  lemma FlipOne(w: Word, k: nat, begin: nat, last: nat)
    requires begin / 64 <= last / 64
    ensures var b, e := begin / 64, last / 64;
            var f := SymmetricDifference(w, InBlock(k, begin, last + 1));
            && (k < b || k > e ==> f == w)
            && (k == b == e ==> f == SymmetricDifference(w, Range(begin % 64, 64) * Range(0, last % 64 + 1)))
            && (k == b < e ==> f == Complement(SymmetricDifference(w, Complement(Range(begin % 64, 64)))))
            && (b < k < e ==> f == Complement(w))
            && (b < k == e ==> f == SymmetricDifference(w, Range(0, last % 64 + 1)))
  {
    var b, e := begin / 64, last / 64;
    var m := InBlock(k, begin, last + 1);
    if k < b || k > e {
      assert m == {};
    } else if k == b == e {
      assert m == Range(begin % 64, 64) * Range(0, last % 64 + 1);
    } else if k == b {
      assert m == Range(begin % 64, 64);
    } else if k < e {
      assert m == ALL;
    } else {
      assert m == Range(0, last % 64 + 1);
    }
  }

  /** What the masks of clearRange do to one block. */
  lemma ClearOne(w: Word, k: nat, begin: nat, last: nat)
    requires begin / 64 <= last / 64
    ensures var b, e := begin / 64, last / 64;
            var f := w - InBlock(k, begin, last + 1);
            && (k < b || k > e ==> f == w)
            && (k == b == e ==> f == w * (Range(0, begin % 64) + Complement(Range(0, last % 64 + 1))))
            && (k == b < e ==> f == w * Range(0, begin % 64))
            && (b < k < e ==> f == {})
            && (b < k == e ==> f == w * Complement(Range(0, last % 64 + 1)))
  {
    var b, e := begin / 64, last / 64;
    var m := InBlock(k, begin, last + 1);
    if k < b || k > e {
      assert m == {};
    } else if k == b == e {
      assert Complement(m) == Range(0, begin % 64) + Complement(Range(0, last % 64 + 1));
    } else if k == b {
      assert Complement(m) == Range(0, begin % 64);
    } else if k < e {
      assert m == ALL;
    } else {
      assert m == Range(0, last % 64 + 1);
    }
  }

  lemma MaskBits(k: nat)
    requires k <= 64
    ensures Bits(High(k)) == Range(k, 64) && Bits(Not(High(k))) == Complement(Range(k, 64))
    ensures Bits(Low(k)) == Range(0, k) && Bits(Not(Low(k))) == Complement(Range(0, k))
  {
    hide High;
    hide Low;
    hide Not;
    HighBits(k);
    LowBits(k);
    NotBits(High(k));
    NotBits(Low(k));
  }

  // ---------------------------------------------------------------------
  // Ranges as the source takes them
  // ---------------------------------------------------------------------

  /** end - 1 in 32 bits. */
  function Last(end: nat): nat {
    if end == 0 then LIMIT32 - 1 else end - 1
  }

  /** The last block comes before the first: begin is at or after end, and not in
      the block of the bit before end. */
  predicate Backward(begin: nat, end: nat) {
    begin / 64 > Last(end) / 64
  }

  /** The ranges for which flipRange and clearRange do what they say. */
  predicate Handled(begin: nat, end: nat) {
    end > 0 && !Backward(begin, end)
  }

  /** All blocks are counted, where the difference of the blocks is taken in 32
      bits. */
  predicate CountsAll(begin: nat, end: nat, n: nat) {
    (end / 64 - begin / 64) % LIMIT32 > n / 2
  }

  /** The ranges of a bitmap of n blocks that are handled without a panic. */
  predicate InBounds(begin: nat, end: nat, n: nat) {
    begin / 64 < n && Last(end) / 64 < n && (CountsAll(begin, end, n) || end / 64 < n)
  }

  /** The effect of flipRange on every range: what it says, or for a backward
      range the parts of the two blocks below begin and below end. */
  ghost predicate FlipEffect(a: seq<Word>, b: seq<Word>, begin: nat, end: nat) {
    if !Backward(begin, end) then Flipped(a, b, begin, Last(end) + 1)
    else
      var f, l := begin / 64, Last(end) / 64;
      && f < |a| && l < |a|
      && b == a[f := SymmetricDifference(a[f], Range(0, begin % 64))]
               [l := SymmetricDifference(a[l], Range(0, Last(end) % 64 + 1))]
  }

  ghost predicate ClearEffect(a: seq<Word>, b: seq<Word>, begin: nat, end: nat) {
    if !Backward(begin, end) then Cleared(a, b, begin, Last(end) + 1)
    else
      var f, l := begin / 64, Last(end) / 64;
      f < |a| && l < |a| && b == a[f := a[f] * Range(0, begin % 64)][l := a[l] - Range(0, Last(end) % 64 + 1)]
  }

  /** None of the bits that clearRange would clear are set. */
  ghost predicate NothingToClear(a: seq<Word>, begin: nat, end: nat) {
    if !Backward(begin, end) then forall k | 0 <= k < |a| :: a[k] !! InBlock(k, begin, Last(end) + 1)
    else
      var f, l := begin / 64, Last(end) / 64;
      f < |a| && l < |a| && a[f] <= Range(0, begin % 64) && a[l] !! Range(0, Last(end) % 64 + 1)
  }

  function Words(blocks: seq<bv64>): (ws: seq<Word>)
    ensures |ws| == |blocks| && forall k | 0 <= k < |blocks| :: ws[k] == Bits(blocks[k])
  {
    seq(|blocks|, k requires 0 <= k < |blocks| => Bits(blocks[k]))
  }

  lemma WordsSet(blocks: seq<bv64>, k: nat, w: bv64)
    requires k < |blocks|
    ensures Words(blocks[k := w]) == Words(blocks)[k := Bits(w)]
  {
    hide Bits;
  }

  /** Words with the same bits are the same. */
  lemma BitsInjective(a: bv64, b: bv64)
    ensures a == b <==> Bits(a) == Bits(b)
  {
    if Bits(a) == Bits(b) {
      XorBits(a, b);
      NonzeroBits(Xor(a, b));
      XorZero(a, b);
    }
  }

  lemma XorZero(a: bv64, b: bv64)
    requires Xor(a, b) == 0
    ensures a == b
  {
  }

  class BitSet {
    var numOnes: nat
    var blocks: seq<bv64>

    ghost function W(): seq<Word>
      reads this
    {
      Words(blocks)
    }

    /** The count is that of the ones in 32 bits. */
    ghost predicate Valid()
      reads this
    {
      numOnes == Total(W()) % LIMIT32 && 64 * |blocks| <= LIMIT32
    }

    /** New, which rounds the size up in 32 bits. */
    constructor (size: nat)
      requires size < LIMIT32
      ensures Valid() && Members(W()) == {} && |blocks| == (size + 63) % LIMIT32 / 64
    {
      numOnes, blocks := 0, seq((size + 63) % LIMIT32 / 64, _ => 0);
      new;
      ZeroBits();
      hide Bits;
      NoMembers(W());
      hide Members;
      hide Total;
    }

    /** GetNumOnes: the number of members, unless all of 2^32 bits are set, when
        it is zero. */
    method GetNumOnes() returns (n: nat)
      requires Valid()
      ensures n == |Members(W())| <==> |Members(W())| != LIMIT32
      ensures n == 0 <==> Members(W()) == {} || |Members(W())| == LIMIT32
    {
      TotalIsCard(W());
      TotalFits(W());
      hide Members;
      hide Total;
      return numOnes;
    }

    /** Invert blocks b to e - 1. */
    method Invert(b: nat, e: nat)
      requires e <= |blocks|
      modifies this`blocks
      ensures |blocks| == old(|blocks|)
      ensures forall k | 0 <= k < |blocks| :: W()[k] == if b <= k < e then Complement(old(W())[k]) else old(W())[k]
    {
      hide Bits;
      hide Not;
      var i := b;
      while i < e
        invariant b <= i && i <= (if b < e then e else b) && |blocks| == old(|blocks|)
        invariant forall k | 0 <= k < |blocks| ::
                    W()[k] == if b <= k < i then Complement(old(W())[k]) else old(W())[k]
      {
        NotBits(blocks[i]);
        WordsSet(blocks, i, Not(blocks[i]));
        blocks := blocks[i := Not(blocks[i])];
        i := i + 1;
      }
    }

    /** Clear blocks b to e - 1. */
    method Zero(b: nat, e: nat)
      requires e <= |blocks|
      modifies this`blocks
      ensures |blocks| == old(|blocks|)
      ensures forall k | 0 <= k < |blocks| :: W()[k] == if b <= k < e then {} else old(W())[k]
    {
      hide Bits;
      hide Not;
      hide And;
      var i := b;
      while i < e
        invariant b <= i && i <= (if b < e then e else b) && |blocks| == old(|blocks|)
        invariant forall k | 0 <= k < |blocks| :: W()[k] == if b <= k < i then {} else old(W())[k]
      {
        AndNotSelf(blocks[i]);
        WordsSet(blocks, i, And(blocks[i], Not(blocks[i])));
        ghost var was := W();
        blocks := blocks[i := And(blocks[i], Not(blocks[i]))];
        assert W() == was[i := {}];
        i := i + 1;
      }
    }

    /** Toggle the first block below the range, then every block but the last,
        then the part of the last. */
    method FlipAcross(begin: nat, last: nat)
      requires begin / 64 < |blocks| && last / 64 < |blocks| && begin / 64 != last / 64
      modifies this`blocks
      ensures |blocks| == old(|blocks|)
      ensures var b, e, w := begin / 64, last / 64,
              SymmetricDifference(old(W())[begin / 64], Complement(Range(begin % 64, 64)));
              && W()[b] == (if b < e then Complement(w) else w)
              && W()[e] == SymmetricDifference(old(W())[e], Range(0, last % 64 + 1))
              && forall k | 0 <= k < |blocks| && k != b && k != e ::
                   W()[k] == if b < k < e then Complement(old(W())[k]) else old(W())[k]
    {
      hide Bits;
      hide High;
      hide Low;
      hide Not;
      hide Xor;
      hide SymmetricDifference;
      hide Complement;
      hide Range;
      var b, e := begin / 64, last / 64;
      ghost var was := W();
      MaskBits(begin % 64);
      MaskBits(last % 64 + 1);
      XorBits(blocks[b], Not(High(begin % 64)));
      WordsSet(blocks, b, Xor(blocks[b], Not(High(begin % 64))));
      blocks := blocks[b := Xor(blocks[b], Not(High(begin % 64)))];
      assert W() == was[b := SymmetricDifference(was[b], Complement(Range(begin % 64, 64)))];
      Invert(b, e);
      ghost var inverted := W();
      XorBits(blocks[e], Low(last % 64 + 1));
      WordsSet(blocks, e, Xor(blocks[e], Low(last % 64 + 1)));
      blocks := blocks[e := Xor(blocks[e], Low(last % 64 + 1))];
      assert W() == inverted[e := SymmetricDifference(inverted[e], Range(0, last % 64 + 1))];
    }

    /** flipRange; false is an index panic. */
    method FlipBlocks(begin: nat, end: nat) returns (ok: bool)
      modifies this`blocks
      ensures |blocks| == old(|blocks|) && (ok <==> begin / 64 < |blocks| && Last(end) / 64 < |blocks|)
      ensures ok ==> FlipEffect(old(W()), W(), begin, end)
    {
      hide Bits;
      hide High;
      hide Low;
      hide And;
      hide Xor;
      hide SymmetricDifference;
      hide Complement;
      hide InBlock;
      hide Range;
      var last := Last(end);
      var b, e := begin / 64, last / 64;
      if b >= |blocks| || e >= |blocks| {
        return false;
      }
      if b == e {
        ghost var was := W();
        MaskBits(begin % 64);
        MaskBits(last % 64 + 1);
        AndBits(High(begin % 64), Low(last % 64 + 1));
        XorBits(blocks[e], And(High(begin % 64), Low(last % 64 + 1)));
        WordsSet(blocks, e, Xor(blocks[e], And(High(begin % 64), Low(last % 64 + 1))));
        blocks := blocks[e := Xor(blocks[e], And(High(begin % 64), Low(last % 64 + 1)))];
        assert W() == was[e := SymmetricDifference(was[e], Range(begin % 64, 64) * Range(0, last % 64 + 1))];
      } else {
        FlipAcross(begin, last);
      }
      if Backward(begin, end) {
        LowIsRest(begin % 64);
      } else {
        forall k | 0 <= k < |blocks|
          ensures W()[k] == SymmetricDifference(old(W())[k], InBlock(k, begin, last + 1))
        {
          FlipOne(old(W())[k], k, begin, last);
        }
      }
      return true;
    }

    /** Clear the first block from the range on, the blocks between, and the part
        of the last. */
    method ClearAcross(begin: nat, last: nat)
      requires begin / 64 < |blocks| && last / 64 < |blocks| && begin / 64 != last / 64
      modifies this`blocks
      ensures |blocks| == old(|blocks|)
      ensures var b, e := begin / 64, last / 64;
              && W()[b] == old(W())[b] * Range(0, begin % 64)
              && W()[e] == old(W())[e] * Complement(Range(0, last % 64 + 1))
              && forall k | 0 <= k < |blocks| && k != b && k != e :: W()[k] == if b < k < e then {} else old(W())[k]
    {
      hide Bits;
      hide High;
      hide Low;
      hide Not;
      hide And;
      hide Complement;
      hide Range;
      var b, e := begin / 64, last / 64;
      ghost var was := W();
      MaskBits(begin % 64);
      MaskBits(last % 64 + 1);
      AndBits(blocks[b], Low(begin % 64));
      WordsSet(blocks, b, And(blocks[b], Low(begin % 64)));
      blocks := blocks[b := And(blocks[b], Low(begin % 64))];
      assert W() == was[b := was[b] * Range(0, begin % 64)];
      Zero(b + 1, e);
      ghost var zeroed := W();
      AndBits(blocks[e], Not(Low(last % 64 + 1)));
      WordsSet(blocks, e, And(blocks[e], Not(Low(last % 64 + 1))));
      blocks := blocks[e := And(blocks[e], Not(Low(last % 64 + 1)))];
      assert W() == zeroed[e := zeroed[e] * Complement(Range(0, last % 64 + 1))];
    }

    /** clearRange; false is an index panic. */
    method ClearBlocks(begin: nat, end: nat) returns (ok: bool)
      modifies this`blocks
      ensures |blocks| == old(|blocks|) && (ok <==> begin / 64 < |blocks| && Last(end) / 64 < |blocks|)
      ensures ok ==> ClearEffect(old(W()), W(), begin, end)
    {
      hide Bits;
      hide Low;
      hide Not;
      hide And;
      hide Or;
      hide InBlock;
      hide Range;
      var last := Last(end);
      var b, e := begin / 64, last / 64;
      if b >= |blocks| || e >= |blocks| {
        return false;
      }
      if b == e {
        ghost var was := W();
        MaskBits(begin % 64);
        MaskBits(last % 64 + 1);
        OrBits(Low(begin % 64), Not(Low(last % 64 + 1)));
        AndBits(blocks[b], Or(Low(begin % 64), Not(Low(last % 64 + 1))));
        WordsSet(blocks, b, And(blocks[b], Or(Low(begin % 64), Not(Low(last % 64 + 1)))));
        blocks := blocks[b := And(blocks[b], Or(Low(begin % 64), Not(Low(last % 64 + 1))))];
        assert W() == was[b := was[b] * (Range(0, begin % 64) + Complement(Range(0, last % 64 + 1)))];
      } else {
        ClearAcross(begin, last);
      }
      if Backward(begin, end) {
        TimesComplement(old(W())[e], Range(0, last % 64 + 1));
      } else {
        forall k | 0 <= k < |blocks|
          ensures W()[k] == old(W())[k] - InBlock(k, begin, last + 1)
        {
          ClearOne(old(W())[k], k, begin, last);
        }
      }
      return true;
    }

    /** countOnesForBlocks: both blocks are included. */
    method CountBlocks(begin: nat, end: nat) returns (ones: nat)
      requires begin / 64 <= end / 64 < |blocks|
      ensures ones == Count(W(), begin / 64, end / 64 + 1)
    {
      hide Bits;
      ones := 0;
      var i := begin / 64;
      while i <= end / 64
        invariant begin / 64 <= i <= end / 64 + 1 && ones == Count(W(), begin / 64, i)
      {
        ones := ones + OnesCount(blocks[i]);
        i := i + 1;
      }
    }

    method CountAll() returns (ones: nat)
      ensures ones == Total(W())
    {
      hide Bits;
      ones := 0;
      var i := 0;
      while i < |blocks|
        invariant 0 <= i <= |blocks| && ones == Total(W()[..i])
      {
        assert W()[..i + 1][..i] == W()[..i];
        ones := ones + OnesCount(blocks[i]);
        i := i + 1;
      }
      assert W()[..i] == W();
    }

    /** Flips exactly the bits in the range if and only if the range is handled,
        and panics exactly when it is out of bounds. The count stays right if all
        blocks are counted or the range is handled, and otherwise exactly if the
        blocks left out have as many ones after as before. */
    method FlipRange(begin: nat, end: nat) returns (ok: bool)
      requires Valid() && begin < LIMIT32 && end < LIMIT32
      modifies this
      ensures |blocks| == old(|blocks|) && (ok <==> InBounds(begin, end, |blocks|))
      ensures ok ==> FlipEffect(old(W()), W(), begin, end)
      ensures ok ==> (Flipped(old(W()), W(), begin, end) <==> Handled(begin, end))
      ensures ok ==> (Valid() <==> FlipKeepsCount(old(W()), begin, end))
    {
      hide Total;
      hide Adjusted;
      hide Count;
      hide FlipEffect;
      hide Flipped;
      hide Outside;
      if CountsAll(begin, end, |blocks|) {
        ok := FlipBlocks(begin, end);
        if ok {
          var ones := CountAll();
          numOnes := ones % LIMIT32;
          FlipIsRight(old(W()), W(), begin, end);
        }
        return;
      }
      SameOrLater(begin, end, |blocks|);
      if end / 64 >= |blocks| {
        return false;
      }
      var before := CountBlocks(begin, end);
      ok := FlipBlocks(begin, end);
      if ok {
        var after := CountBlocks(begin, end);
        numOnes := Adjusted(numOnes, before, after);
        FlipIsRight(old(W()), W(), begin, end);
        Recount(old(W()), W(), begin / 64, end / 64 + 1);
        FlipOutside(old(W()), W(), begin, end);
      }
    }

    /** As FlipRange; a range that is not handled is still right if there was
        nothing to clear in what is cleared. */
    method ClearRange(begin: nat, end: nat) returns (ok: bool)
      requires Valid() && begin < LIMIT32 && end < LIMIT32
      modifies this
      ensures |blocks| == old(|blocks|) && (ok <==> InBounds(begin, end, |blocks|))
      ensures ok ==> ClearEffect(old(W()), W(), begin, end)
      ensures ok ==>
                (Cleared(old(W()), W(), begin, end) <==> Handled(begin, end) || NothingToClear(old(W()), begin, end))
      ensures ok ==> (Valid() <==> ClearKeepsCount(old(W()), begin, end))
    {
      hide Total;
      hide Adjusted;
      hide Count;
      hide ClearEffect;
      hide Cleared;
      hide Outside;
      if CountsAll(begin, end, |blocks|) {
        ok := ClearBlocks(begin, end);
        if ok {
          var ones := CountAll();
          numOnes := ones % LIMIT32;
          ClearIsRight(old(W()), W(), begin, end);
        }
        return;
      }
      SameOrLater(begin, end, |blocks|);
      if end / 64 >= |blocks| {
        return false;
      }
      var before := CountBlocks(begin, end);
      ok := ClearBlocks(begin, end);
      if ok {
        var after := CountBlocks(begin, end);
        numOnes := Adjusted(numOnes, before, after);
        ClearIsRight(old(W()), W(), begin, end);
        Recount(old(W()), W(), begin / 64, end / 64 + 1);
        ClearOutside(old(W()), W(), begin, end);
      }
    }

    /** Append blocks until block k exists. */
    method Extend(k: nat)
      requires Valid() && 64 * (k + 1) <= LIMIT32
      modifies this`blocks
      ensures Valid() && k < |blocks| && Members(W()) == old(Members(W()))
    {
      hide Members;
      hide Total;
      hide Bits;
      if k >= |blocks| {
        var n := k - |blocks| + 1;
        Padded(W(), n);
        ZeroBits();
        blocks := blocks + seq(n, _ => 0);
        assert W() == old(W()) + seq(n, _ => {});
      }
    }

    method Add(i: nat)
      requires Valid() && i < LIMIT32
      modifies this
      ensures Valid() && Members(W()) == old(Members(W())) + {i}
    {
      hide Members;
      hide Total;
      hide Bits;
      hide Or;
      hide One;
      var k, j := i / 64, i % 64;
      Extend(k);
      BitSetTo(W(), k, j, true);
      OneBits(j);
      OrBits(blocks[k], One(j));
      BitsInjective(blocks[k], Or(blocks[k], One(j)));
      WordsSet(blocks, k, Or(blocks[k], One(j)));
      if blocks[k] != Or(blocks[k], One(j)) {
        ModNext(Total(W()));
        blocks := blocks[k := Or(blocks[k], One(j))];
        numOnes := (numOnes + 1) % LIMIT32;
      }
    }

    /** False is an index panic. */
    method Remove(i: nat) returns (ok: bool)
      requires Valid()
      modifies this
      ensures Valid() && (ok <==> i / 64 < |blocks|)
      ensures Members(W()) == if ok then old(Members(W())) - {i} else old(Members(W()))
    {
      hide Members;
      hide Total;
      hide Bits;
      hide And;
      hide Not;
      hide One;
      var k, j := i / 64, i % 64;
      if k >= |blocks| {
        return false;
      }
      var w := And(blocks[k], Not(One(j)));
      BitSetTo(W(), k, j, false);
      OneBits(j);
      NotBits(One(j));
      AndBits(blocks[k], Not(One(j)));
      TimesComplement(Bits(blocks[k]), {j});
      BitsInjective(blocks[k], w);
      WordsSet(blocks, k, w);
      if blocks[k] != w {
        ModNext(Total(W()) - 1);
        blocks := blocks[k := w];
        numOnes := (numOnes - 1) % LIMIT32;
      }
      return true;
    }

    /** The first member from start on, or false if there is none. */
    method FirstOne(start: nat) returns (bit: nat, ok: bool)
      requires Valid()
      ensures ok ==> start <= bit && Has(W(), bit) && forall m | start <= m < bit :: !Has(W(), m)
      ensures !ok ==> bit == MAX_ENTRY && forall m | start <= m :: !Has(W(), m)
    {
      hide Bits;
      hide And;
      hide High;
      hide Range;
      hide OnesCount;
      hide Lowest;
      hide Has;
      hide Complement;
      NoneBeyond(W());
      var i, n := start / 64, |blocks|;
      if i >= n {
        return MAX_ENTRY, false;
      }
      HighBits(start % 64);
      AndBits(blocks[i], High(start % 64));
      var w := And(blocks[i], High(start % 64));
      while true
        invariant start / 64 <= i < n
        invariant Bits(w) == W()[i] * Range(if i == start / 64 then start % 64 else 0, 64)
        invariant forall m | start <= m < 64 * i :: !Has(W(), m)
        decreases n - i
      {
        NonzeroBits(w);
        if w != 0 {
          ghost var j := LowestBits(w);
          FirstInBlock(W(), i, j, start, Bits(w));
          return (64 * i + TrailingZeros(w)) % LIMIT32, true;
        }
        NoneInBlock(W(), i, start);
        i := i + 1;
        if i == n {
          break;
        }
        w := blocks[i];
        WholeWord(W()[i]);
      }
      return MAX_ENTRY, false;
    }

    /** The first bit from start on that is not a member, or false if the bitmap
        has none. */
    method FirstZero(start: nat) returns (bit: nat, ok: bool)
      requires Valid()
      ensures ok ==> start <= bit < 64 * |blocks| && !Has(W(), bit) && forall m | start <= m < bit :: Has(W(), m)
      ensures !ok ==> bit == MAX_ENTRY && forall m | start <= m < 64 * |blocks| :: Has(W(), m)
    {
      hide Bits;
      hide Or;
      hide Not;
      hide Low;
      hide Range;
      hide OnesCount;
      hide Lowest;
      hide Has;
      hide Complement;
      var i, n := start / 64, |blocks|;
      if i >= n {
        return MAX_ENTRY, false;
      }
      LowBits(start % 64);
      OrBits(blocks[i], Low(start % 64));
      var w := Or(blocks[i], Low(start % 64));
      while true
        invariant start / 64 <= i < n
        invariant Bits(w) == W()[i] + Range(0, if i == start / 64 then start % 64 else 0)
        invariant forall m | start <= m < 64 * i :: Has(W(), m)
        decreases n - i
      {
        NotBits(w);
        NonzeroBits(Not(w));
        AllOnes(w);
        if w != ONES {
          ghost var j := LowestBits(Not(w));
          FirstFreeInBlock(W(), i, j, start, Bits(w));
          return (64 * i + TrailingZeros(Not(w))) % LIMIT32, true;
        }
        NoneFreeInBlock(W(), i, start);
        i := i + 1;
        if i == n {
          break;
        }
        w := blocks[i];
        NoMask(W()[i]);
      }
      return MAX_ENTRY, false;
    }

    /** Visits the members in the range in increasing order until f says stop, if
        the end can be rounded up in 32 bits, and none at all if it cannot. */
    method ForEach(start: nat, end: nat, f: nat -> bool) returns (visited: seq<nat>, stopped: bool)
      requires Valid() && start < LIMIT32 && end < LIMIT32
      ensures end + 63 >= LIMIT32 ==> visited == [] && !stopped
      ensures Increasing(visited) && forall m <- visited :: start <= m < end && Has(W(), m)
      ensures end + 63 < LIMIT32 && !stopped ==>
                (forall m | start <= m < end && Has(W(), m) :: m in visited) && Agreed(f, visited, 0, |visited|)
      ensures stopped ==>
                && visited != [] && Agreed(f, visited, 0, |visited| - 1) && !f(visited[|visited| - 1])
                && forall m | start <= m < end && Has(W(), m) :: m in visited || m > visited[|visited| - 1]
    {
      hide Bits;
      hide Not;
      hide Low;
      hide Range;
      hide Increasing;
      hide Visiting;
      visited, stopped := [], false;
      IncreasingNone();
      var blockEnd := (end + 63) % LIMIT32 / 64;
      assert end + 63 >= LIMIT32 ==> blockEnd == 0;
      if blockEnd > |blocks| {
        blockEnd := |blocks|;
      }
      LowBits(start % 64);
      NotBits(Low(start % 64));
      var i, mask := start / 64, Not(Low(start % 64));
      VisitNone(W(), i, start, end);
      while i < blockEnd
        invariant start / 64 <= i && (i <= blockEnd || i == start / 64) && !stopped
        invariant Bits(mask) == Complement(Range(0, if i == start / 64 then start % 64 else 0))
        invariant Increasing(visited) && AllBelow(visited, 64 * i) && Agreed(f, visited, 0, |visited|)
        invariant Visiting(W(), start, end, visited, i) && (visited != [] ==> end + 63 < LIMIT32)
      {
        visited, stopped := VisitBlock(visited, i, start, end, mask, f);
        if stopped {
          return;
        }
        NoBitsMasked();
        mask := ONES;
        i := i + 1;
      }
      VisitEnd(W(), i, start, end, visited);
    }

    /** One block of ForEach. */
    method VisitBlock(was: seq<nat>, i: nat, start: nat, end: nat, mask: bv64, f: nat -> bool)
      returns (visited: seq<nat>, stopped: bool)
      requires Valid() && start / 64 <= i < |blocks| && i < (end + 63) / 64
      requires Bits(mask) == Complement(Range(0, if i == start / 64 then start % 64 else 0))
      requires Increasing(was) && AllBelow(was, 64 * i) && Agreed(f, was, 0, |was|) && Visiting(W(), start, end, was, i)
      ensures Increasing(visited) && AllBelow(visited, 64 * (i + 1))
      ensures !stopped ==> Visiting(W(), start, end, visited, i + 1) && Agreed(f, visited, 0, |visited|)
      ensures stopped ==>
                && visited != [] && Agreed(f, visited, 0, |visited| - 1) && !f(visited[|visited| - 1])
                && (forall m <- visited :: start <= m < end && Has(W(), m))
                && forall m | start <= m < end && Has(W(), m) :: m in visited || m > visited[|visited| - 1]
    {
      hide Bits;
      hide And;
      hide Low;
      hide Range;
      hide Increasing;
      hide Shifted;
      hide AllBelow;
      hide Has;
      var m := mask;
      LowBits(end % 64);
      AndBits(mask, Low(end % 64));
      if i == end / 64 {
        m := And(mask, Low(end % 64));
      }
      AndBits(blocks[i], m);
      RangeMask(W()[i], i, start, end, Bits(m));
      ghost var seen;
      visited, stopped, seen := VisitBits(was, And(blocks[i], m), 64 * i, f);
      VisitedInBlock(W(), i, start, end, was, visited, seen);
      if stopped { StoppedInBlock(W(), i, start, end, was, visited, seen); }
    }

    /** The members in increasing order. */
    method ToSlice() returns (s: seq<nat>)
      requires Valid()
      ensures Increasing(s) && forall i :: i in s <==> i in Members(W())
    {
      hide Increasing;
      hide Shifted;
      hide Bits;
      s := [];
      IncreasingNone();
      var k := 0;
      while k < |blocks|
        invariant 0 <= k <= |blocks| && Increasing(s) && AllBelow(s, 64 * k)
        invariant forall i :: i in s <==> i in Members(W()[..k])
      {
        assert W()[..k + 1][..k] == W()[..k];
        var r, _, _ := VisitBits(s, blocks[k], 64 * k, _ => true);
        s := r;
        k := k + 1;
      }
      assert W()[..k] == W();
    }
  }

  /** Two blocks and the last bit: the range ends with the bitmap, and the count
      reads a block that is not there. */
  method EndRangePanics() returns (ok: bool)
    ensures !ok
  {
    hide Members;
    hide Total;
    hide FlipEffect;
    hide Flipped;
    hide FlipKeepsCount;
    var b := new BitSet(128);
    assert |b.blocks| == 2;
    ok := b.FlipRange(127, 128);
  }

  /** A member that ForEach does not visit, because the end of the range wraps when
      it is rounded up. */
  method WrappedEndVisitsNothing() returns (visited: seq<nat>, b: BitSet)
    ensures visited == [] && Has(b.W(), 0)
  {
    hide Members;
    hide Total;
    b := new BitSet(0);
    b.Add(0);
    MembersHas(b.W(), 0);
    var v, _ := b.ForEach(0, LIMIT32 - 1, _ => true);
    return v, b;
  }

  lemma NoMemberIn(ws: seq<Word>, k: nat)
    requires k < |ws| && forall m <- Members(ws) :: m / 64 != k
    ensures ws[k] == {}
  {
    hide Members;
    forall j: nat
      ensures j !in ws[k]
    {
      assert j in ws[k] ==> j in ALL;
      if j < 64 { HasAt(ws, k, j); }
    }
  }

  /** A bitmap that holds bit 64 and then has the empty range at 64 flipped: the
      bits before it are set, and not counted. */
  method EmptyRangeFlips() returns (ok: bool, b: BitSet)
    ensures ok && !b.Valid() && 0 in Members(b.W())
  {
    hide Members;
    hide Total;
    hide Bits;
    hide Flipped;
    b := new BitSet(0);
    b.Add(64);
    HasAt(b.W(), 1, 0);
    NoMemberIn(b.W(), 0);
    ok := b.FlipRange(64, 64);
    HasAt(b.W(), 0, 0);
    assert 0 in Range(0, 64);
  }

  /** Likewise cleared: the bits on both sides are lost, and one too many is
      counted. */
  method EmptyRangeClears() returns (ok: bool, b: BitSet)
    ensures ok && !b.Valid() && 0 !in Members(b.W()) && 64 !in Members(b.W())
  {
    hide Members;
    hide Total;
    hide Bits;
    hide Cleared;
    b := new BitSet(0);
    b.Add(0);
    b.Add(64);
    HasAt(b.W(), 0, 0);
    HasAt(b.W(), 1, 0);
    ok := b.ClearRange(64, 64);
    HasAt(b.W(), 0, 0);
    HasAt(b.W(), 1, 0);
    assert 0 in Range(0, 64);
  }

  lemma {:induction false} NoMembers(ws: seq<Word>)
    requires forall k | 0 <= k < |ws| :: ws[k] == {}
    ensures Members(ws) == {} && Total(ws) == 0
  {
    if ws != [] {
      NoMembers(ws[..|ws| - 1]);
      NothingShifted(64 * (|ws| - 1));
    }
  }

  lemma LowIsRest(k: nat)
    requires k <= 64
    ensures Complement(Range(k, 64)) == Range(0, k)
  {
  }

  lemma TimesComplement(a: Word, b: Word)
    ensures a * Complement(b) == a - b
  {
  }

  lemma AndNotSelf(w: bv64)
    ensures Bits(And(w, Not(w))) == {}
  {
    NotBits(w);
    AndBits(w, Not(w));
  }

  lemma ModNext(x: int)
    ensures (x % LIMIT32 + 1) % LIMIT32 == (x + 1) % LIMIT32 && ((x + 1) % LIMIT32 - 1) % LIMIT32 == x % LIMIT32
  {
    var q := x / LIMIT32;
    assert x == q * LIMIT32 + x % LIMIT32;
    ModShift(x % LIMIT32 + 1, q);
    var p := (x + 1) / LIMIT32;
    assert x + 1 == p * LIMIT32 + (x + 1) % LIMIT32;
    ModShift((x + 1) % LIMIT32 - 1, p);
  }

  // ---------------------------------------------------------------------
  // When a range is handled, and what the blocks left out of the count hold
  // ---------------------------------------------------------------------

  /** When not all blocks are counted, the range does not go back a block, except
      to the end of the block before. */
  lemma SameOrLater(begin: nat, end: nat, n: nat)
    requires begin < LIMIT32 && end < LIMIT32 && n <= LIMIT32 / 64 && !CountsAll(begin, end, n)
    ensures begin / 64 <= end / 64
    ensures Backward(begin, end) ==> begin / 64 == end / 64 > 0 && end % 64 == 0
    ensures end == 0 ==> begin < 64
  {
  }

  lemma FlippedLonger(a: seq<Word>, b: seq<Word>, begin: nat)
    requires Flipped(a, b, begin, LIMIT32) && begin / 64 < |a| && 64 * |a| <= LIMIT32
    ensures !Flipped(a, b, begin, 0)
  {
    var k := begin / 64;
    assert begin % 64 in InBlock(k, begin, LIMIT32);
    assert InBlock(k, begin, 0) == {};
  }

  /** Flipping does what it says exactly on the handled ranges. */
  lemma FlipIsRight(a: seq<Word>, b: seq<Word>, begin: nat, end: nat)
    requires FlipEffect(a, b, begin, end) && begin / 64 < |a| && Last(end) / 64 < |a| && 64 * |a| <= LIMIT32
    ensures |a| == |b| && (Flipped(a, b, begin, end) <==> Handled(begin, end))
  {
    if Backward(begin, end) {
      var l := Last(end) / 64;
      assert InBlock(l, begin, end) == {};
      assert 0 in Range(0, Last(end) % 64 + 1);
      assert 0 in a[l] <==> 0 !in b[l];
    } else if end == 0 {
      FlippedLonger(a, b, begin);
    }
  }

  lemma ClearIsRight(a: seq<Word>, b: seq<Word>, begin: nat, end: nat)
    requires ClearEffect(a, b, begin, end)
    ensures |a| == |b|
    ensures Cleared(a, b, begin, end) <==> Handled(begin, end) || NothingToClear(a, begin, end)
  {
    ClearsNothing(a, b, begin, end);
    if !Handled(begin, end) {
      forall k | 0 <= k < |a|
        ensures InBlock(k, begin, end) == {}
      {
      }
      if Cleared(a, b, begin, end) {
        assert forall k | 0 <= k < |a| :: b[k] == a[k];
      }
    }
  }

  lemma ClearsNothing(a: seq<Word>, b: seq<Word>, begin: nat, end: nat)
    requires ClearEffect(a, b, begin, end)
    ensures b == a <==> NothingToClear(a, begin, end)
  {
    if !Backward(begin, end) {
      if NothingToClear(a, begin, end) {
        forall k | 0 <= k < |a| ensures b[k] == a[k] { }
      }
    } else {
      var f, l := begin / 64, Last(end) / 64;
      var keep, drop := Range(0, begin % 64), Range(0, Last(end) % 64 + 1);
      assert a[f] * keep == a[f] <==> a[f] <= keep by { assert a[f] <= keep ==> a[f] * keep == a[f]; }
      assert a[l] - drop == a[l] <==> a[l] !! drop by { assert a[l] !! drop ==> a[l] - drop == a[l]; }
      assert b[f] == a[f] * keep && b[l] == a[l] - drop;
      if NothingToClear(a, begin, end) { assert b == a; }
    }
  }

  /** A word and its complement have 64 ones together. */
  lemma ComplementCard(w: Word)
    ensures |w| + |Complement(w)| == 64
  {
    RangeCard(0, 64);
    assert ALL == w + Complement(w);
  }

  lemma {:induction false} ComplementCount(a: seq<Word>, b: seq<Word>, lo: nat, hi: nat)
    requires lo <= hi <= |a| == |b| && forall k | lo <= k < hi :: b[k] == Complement(a[k])
    ensures Count(a, lo, hi) + Count(b, lo, hi) == 64 * (hi - lo)
  {
    hide Complement;
    hide Range;
    if lo < hi {
      ComplementCount(a, b, lo, hi - 1);
      ComplementCard(a[hi - 1]);
    }
  }

  /** Two lists that differ in one block outside lo to hi - 1. */
  lemma OneOutside(a: seq<Word>, b: seq<Word>, l: nat, lo: nat, hi: nat)
    requires l < lo <= hi <= |a| == |b| && forall k | 0 <= k < |a| && !(lo <= k < hi) && k != l :: a[k] == b[k]
    ensures Outside(a, lo, hi) == Outside(b, lo, hi) <==> |a[l]| == |b[l]|
  {
    CountSplits(a, 0, l, lo);
    CountSplits(b, 0, l, lo);
    CountSplits(a, l, l + 1, lo);
    CountSplits(b, l, l + 1, lo);
    CountSame(a, b, 0, l);
    CountSame(a, b, l + 1, lo);
    CountSame(a, b, hi, |a|);
    CountOne(a, l);
    CountOne(b, l);
  }

  lemma CountOne(a: seq<Word>, l: nat)
    requires l < |a|
    ensures Count(a, l, l + 1) == |a[l]|
  {
    assert Count(a, l, l) == 0;
  }

  /** The count after FlipRange is right: it counted all blocks, or those that
      it changed, or the others happen to have as many ones as before. */
  ghost predicate FlipKeepsCount(a: seq<Word>, begin: nat, end: nat) {
    || CountsAll(begin, end, |a|)
    || Handled(begin, end)
    || (end == 0 && 2 * Count(a, 1, |a|) == LIMIT32 - 64)
    || (Backward(begin, end) && 0 < end / 64 <= |a| && |a[end / 64 - 1]| == 32)
  }

  ghost predicate ClearKeepsCount(a: seq<Word>, begin: nat, end: nat) {
    || CountsAll(begin, end, |a|)
    || Handled(begin, end)
    || (end == 0 && Count(a, 1, |a|) == 0)
    || (Backward(begin, end) && 0 < end / 64 <= |a| && a[end / 64 - 1] == {})
  }

  /** The blocks that are not counted for a range that is not handled: an end of
      zero means the end of a full bitmap, and otherwise the block before. */
  lemma Uncounted(a: seq<Word>, begin: nat, end: nat)
    requires begin < LIMIT32 && end < LIMIT32 && 64 * |a| <= LIMIT32
    requires !CountsAll(begin, end, |a|) && !Handled(begin, end) && end / 64 < |a| && Last(end) / 64 < |a|
    ensures if end == 0 then begin < 64 && 64 * |a| == LIMIT32 && !Backward(begin, end)
            else
              && Backward(begin, end) && begin / 64 == end / 64 > 0
              && Last(end) / 64 == end / 64 - 1 && Last(end) % 64 == 63
  {
    SameOrLater(begin, end, |a|);
  }

  lemma FlipOutside(a: seq<Word>, b: seq<Word>, begin: nat, end: nat)
    requires FlipEffect(a, b, begin, end) && begin < LIMIT32 && end < LIMIT32 && |a| == |b| && 64 * |a| <= LIMIT32
    requires !CountsAll(begin, end, |a|) && begin / 64 <= end / 64 < |a| && Last(end) / 64 < |a|
    ensures Outside(a, begin / 64, end / 64 + 1) == Outside(b, begin / 64, end / 64 + 1)
            <==> FlipKeepsCount(a, begin, end)
  {
    hide Outside;
    hide Count;
    hide CountsAll;
    var lo, hi := begin / 64, end / 64 + 1;
    if Handled(begin, end) {
      OutsideRange(a, b, begin, end, lo, hi);
      OutsideSame(a, b, lo, hi);
    } else {
      Uncounted(a, begin, end);
      if end == 0 {
        FlipAllButFirst(a, b, begin);
      } else {
        FlipBefore(a, b, end / 64 - 1, begin % 64);
      }
    }
  }

  lemma FlipBefore(a: seq<Word>, b: seq<Word>, l: nat, j: nat)
    requires l + 1 < |a| && j < 64
    requires b == a[l + 1 := SymmetricDifference(a[l + 1], Range(0, j))][l := SymmetricDifference(a[l], Range(0, 64))]
    ensures Outside(a, l + 1, l + 2) == Outside(b, l + 1, l + 2) <==> |a[l]| == 32
  {
    hide Outside;
    hide SymmetricDifference;
    hide Complement;
    OneOutside(a, b, l, l + 1, l + 2);
    FlipWhole(a[l]);
    ComplementCard(a[l]);
  }

  lemma FlipAllButFirst(a: seq<Word>, b: seq<Word>, begin: nat)
    requires Flipped(a, b, begin, LIMIT32) && begin < 64 && 64 * |a| <= LIMIT32
    requires |a| > 0
    ensures Outside(a, 0, 1) == Outside(b, 0, 1) <==> 2 * Count(a, 1, |a|) == 64 * (|a| - 1)
  {
    hide Outside;
    forall k | 1 <= k < |a|
      ensures b[k] == Complement(a[k])
    {
      assert InBlock(k, begin, LIMIT32) == ALL;
      FlipWhole(a[k]);
    }
    ComplementCount(a, b, 1, |a|);
    OutsideFirst(a);
    OutsideFirst(b);
  }

  lemma FlipWhole(w: Word)
    ensures SymmetricDifference(w, Range(0, 64)) == Complement(w)
  {
  }

  lemma OutsideFirst(a: seq<Word>)
    requires |a| > 0
    ensures Outside(a, 0, 1) == Count(a, 1, |a|)
  {
  }

  lemma {:induction false} CountNone(a: seq<Word>, lo: nat, hi: nat)
    requires lo <= hi <= |a| && forall k | lo <= k < hi :: a[k] == {}
    ensures Count(a, lo, hi) == 0
  {
    if lo < hi { CountNone(a, lo, hi - 1); }
  }

  lemma ClearOutside(a: seq<Word>, b: seq<Word>, begin: nat, end: nat)
    requires ClearEffect(a, b, begin, end) && begin < LIMIT32 && end < LIMIT32 && |a| == |b| && 64 * |a| <= LIMIT32
    requires !CountsAll(begin, end, |a|) && begin / 64 <= end / 64 < |a| && Last(end) / 64 < |a|
    ensures Outside(a, begin / 64, end / 64 + 1) == Outside(b, begin / 64, end / 64 + 1)
            <==> ClearKeepsCount(a, begin, end)
  {
    hide Outside;
    hide Count;
    hide CountsAll;
    var lo, hi := begin / 64, end / 64 + 1;
    if Handled(begin, end) {
      OutsideRange(a, b, begin, end, lo, hi);
      OutsideSame(a, b, lo, hi);
    } else {
      Uncounted(a, begin, end);
      if end == 0 {
        ClearAllButFirst(a, b, begin);
      } else {
        ClearBefore(a, b, end / 64 - 1, begin % 64);
      }
    }
  }

  lemma ClearBefore(a: seq<Word>, b: seq<Word>, l: nat, j: nat)
    requires l + 1 < |a| && j < 64
    requires b == a[l + 1 := a[l + 1] * Range(0, j)][l := a[l] - Range(0, 64)]
    ensures Outside(a, l + 1, l + 2) == Outside(b, l + 1, l + 2) <==> a[l] == {}
  {
    hide Outside;
    OneOutside(a, b, l, l + 1, l + 2);
    assert a[l] - Range(0, 64) == {};
  }

  lemma ClearAllButFirst(a: seq<Word>, b: seq<Word>, begin: nat)
    requires Cleared(a, b, begin, LIMIT32) && begin < 64 && 64 * |a| <= LIMIT32 && |a| > 0
    ensures Outside(a, 0, 1) == Outside(b, 0, 1) <==> Count(a, 1, |a|) == 0
  {
    hide Outside;
    forall k | 1 <= k < |a|
      ensures b[k] == {}
    {
      assert InBlock(k, begin, LIMIT32) == ALL;
    }
    CountNone(b, 1, |a|);
    OutsideFirst(a);
    OutsideFirst(b);
  }

  lemma NoneBeyond(ws: seq<Word>)
    ensures forall m | m >= 64 * |ws| :: !Has(ws, m)
  {
  }

  lemma WholeWord(w: Word)
    ensures w == w * Range(0, 64)
  {
  }

  lemma NoMask(w: Word)
    ensures w == w + Range(0, 0)
  {
  }

  lemma AllOnes(w: bv64)
    ensures w == ONES <==> Not(w) == 0
  {
  }

  lemma NoBitsMasked()
    ensures Bits(ONES) == Complement(Range(0, 0))
  {
    HighBits(0);
    assert ONES == High(0);
    hide Bits;
  }

  /** Position j of block i is the first member from start on. */
  lemma FirstInBlock(ws: seq<Word>, i: nat, j: nat, start: nat, w: Word)
    requires start / 64 <= i < |ws| && w == ws[i] * Range(if i == start / 64 then start % 64 else 0, 64)
    requires j in w && (forall x <- w :: j <= x) && forall m | start <= m < 64 * i :: !Has(ws, m)
    ensures j < 64 && start <= 64 * i + j && Has(ws, 64 * i + j) && forall m | start <= m < 64 * i + j :: !Has(ws, m)
  {
    assert j in ALL;
    forall m | start <= m < 64 * i + j
      ensures !Has(ws, m)
    {
      if m >= 64 * i { assert m % 64 in ALL && m % 64 !in w; }
    }
  }

  lemma NoneInBlock(ws: seq<Word>, i: nat, start: nat)
    requires start / 64 <= i < |ws| && ws[i] * Range(if i == start / 64 then start % 64 else 0, 64) == {}
    requires forall m | start <= m < 64 * i :: !Has(ws, m)
    ensures forall m | start <= m < 64 * (i + 1) :: !Has(ws, m)
  {
    forall m | start <= m < 64 * (i + 1)
      ensures !Has(ws, m)
    {
      if m >= 64 * i { assert m % 64 !in ws[i] * Range(if i == start / 64 then start % 64 else 0, 64); }
    }
  }

  lemma FirstFreeInBlock(ws: seq<Word>, i: nat, j: nat, start: nat, w: Word)
    requires start / 64 <= i < |ws| && w == ws[i] + Range(0, if i == start / 64 then start % 64 else 0)
    requires j in Complement(w) && (forall x <- Complement(w) :: j <= x) && forall m | start <= m < 64 * i :: Has(ws, m)
    ensures j < 64 && start <= 64 * i + j && !Has(ws, 64 * i + j) && forall m | start <= m < 64 * i + j :: Has(ws, m)
  {
    assert j in ALL;
    forall m | start <= m < 64 * i + j
      ensures Has(ws, m)
    {
      if m >= 64 * i { assert m % 64 in ALL && m % 64 !in Complement(w); }
    }
  }

  lemma NoneFreeInBlock(ws: seq<Word>, i: nat, start: nat)
    requires start / 64 <= i < |ws| && Complement(ws[i] + Range(0, if i == start / 64 then start % 64 else 0)) == {}
    requires forall m | start <= m < 64 * i :: Has(ws, m)
    ensures forall m | start <= m < 64 * (i + 1) :: Has(ws, m)
  {
    forall m | start <= m < 64 * (i + 1)
      ensures Has(ws, m)
    {
      if m >= 64 * i {
        assert m % 64 in ALL && m % 64 !in Complement(ws[i] + Range(0, if i == start / 64 then start % 64 else 0));
      }
    }
  }

  /** The bits of block i in the range. */
  ghost function InRange(w: Word, i: nat, start: nat, end: nat): Word {
    set j | j in w && start <= 64 * i + j < end
  }

  lemma RangeMask(w: Word, i: nat, start: nat, end: nat, mask: Word)
    requires start / 64 <= i < (end + 63) / 64
    requires var rest := Complement(Range(0, if i == start / 64 then start % 64 else 0));
             mask == if i == end / 64 then rest * Range(0, end % 64) else rest
    ensures w * mask == InRange(w, i, start, end)
  {
    forall j <- w
      ensures j in mask <==> start <= 64 * i + j < end
    {
      assert j in ALL;
    }
  }

  ghost predicate Wanted(ws: seq<Word>, start: nat, end: nat, m: nat) {
    start <= m < end && Has(ws, m)
  }

  /** The members of the range in the first i blocks have been visited. */
  ghost predicate Visiting(ws: seq<Word>, start: nat, end: nat, visited: seq<nat>, i: nat) {
    forall m: nat :: m in visited <==> m < 64 * i && Wanted(ws, start, end, m)
  }

  lemma VisitNone(ws: seq<Word>, i: nat, start: nat, end: nat)
    requires i == start / 64
    ensures Visiting(ws, start, end, [], i)
  {
  }

  lemma VisitEnd(ws: seq<Word>, i: nat, start: nat, end: nat, visited: seq<nat>)
    requires Visiting(ws, start, end, visited, i)
    ensures forall m <- visited :: start <= m < end && Has(ws, m)
    ensures end <= 64 * i || |ws| <= i ==> forall m | start <= m < end && Has(ws, m) :: m in visited
  {
    forall m | start <= m < end && Has(ws, m)
      ensures end <= 64 * i || |ws| <= i ==> m in visited
    {
      assert Wanted(ws, start, end, m);
    }
  }

  lemma ShiftedInRange(ws: seq<Word>, i: nat, start: nat, end: nat, seen: Word, m: nat)
    requires i < |ws| && seen <= InRange(ws[i], i, start, end)
    ensures m in Shifted(seen, 64 * i) ==> m / 64 == i && m % 64 in seen && Wanted(ws, start, end, m)
    ensures m / 64 == i && Wanted(ws, start, end, m) ==> m % 64 in InRange(ws[i], i, start, end)
    ensures m / 64 == i && m % 64 in seen ==> m in Shifted(seen, 64 * i)
  {
    InShifted(seen, i, m);
    assert m == 64 * (m / 64) + m % 64;
  }

  lemma VisitedInBlock(ws: seq<Word>, i: nat, start: nat, end: nat, was: seq<nat>, visited: seq<nat>, seen: Word)
    requires i < |ws| && seen <= InRange(ws[i], i, start, end) && Holds(visited, was, seen, 64 * i)
    requires Visiting(ws, start, end, was, i)
    ensures forall m <- visited :: start <= m < end && Has(ws, m)
    ensures seen == InRange(ws[i], i, start, end) ==> Visiting(ws, start, end, visited, i + 1)
  {
    forall m: nat
      ensures m in visited ==> Wanted(ws, start, end, m) && m < 64 * (i + 1)
      ensures seen == InRange(ws[i], i, start, end) && m < 64 * (i + 1) && Wanted(ws, start, end, m) ==> m in visited
    {
      ShiftedInRange(ws, i, start, end, seen, m);
    }
  }

  lemma StoppedInBlock(ws: seq<Word>, i: nat, start: nat, end: nat, was: seq<nat>, visited: seq<nat>, seen: Word)
    requires i < |ws| && seen <= InRange(ws[i], i, start, end) && Holds(visited, was, seen, 64 * i)
    requires Visiting(ws, start, end, was, i)
    requires visited != [] && AllBelow(visited, 64 * i + 64)
    requires forall j <- InRange(ws[i], i, start, end) - seen :: visited[|visited| - 1] < 64 * i + j
    ensures forall m | start <= m < end && Has(ws, m) :: m in visited || m > visited[|visited| - 1]
  {
    assert visited[|visited| - 1] in visited;
    forall m | start <= m < end && Has(ws, m)
      ensures m in visited || m > visited[|visited| - 1]
    {
      ShiftedInRange(ws, i, start, end, seen, m);
      if m / 64 == i && m % 64 !in seen { assert m % 64 in InRange(ws[i], i, start, end) - seen; }
    }
  }

  /** bits.TrailingZeros64 of a word that is not zero. */
  function TrailingZeros(w: bv64): nat { OnesCount(Lowest(w) - 1) }

  /** Visit the one bits of a block, lowest first, until f says stop: seen are the
      bits visited, and what is left is above the last of them. */
  method VisitBits(s: seq<nat>, w: bv64, base: nat, f: nat -> bool)
    returns (r: seq<nat>, stopped: bool, ghost seen: Word)
    requires Increasing(s) && AllBelow(s, base) && base + 64 <= LIMIT32
    ensures Increasing(r) && AllBelow(r, base + 64) && Holds(r, s, seen, base) && seen <= Bits(w) && s <= r
    ensures !stopped ==> seen == Bits(w) && Agreed(f, r, |s|, |r|)
    ensures stopped ==> |r| > |s| && Agreed(f, r, |s|, |r| - 1) && !f(r[|r| - 1])
    ensures stopped ==> forall i <- Bits(w) - seen :: r[|r| - 1] < base + i
  {
    hide Increasing;
    hide Holds;
    hide Range;
    hide Bits;
    hide Lowest;
    hide Xor;
    hide OnesCount;
    r, stopped, seen := s, false, {};
    var rest := w;
    HoldsNone(s, Bits(w), base);
    assert Bits(w) - Bits(rest) == {};
    assert forall i <- Bits(rest) :: AllBelow(r, base + i) by { AllBelowMore(r, base, Bits(rest)); }
    assert AllBelow(r, base + 64);
    hide AllBelow;
    while rest != 0
      invariant Bits(rest) <= Bits(w) && seen == Bits(w) - Bits(rest) && Increasing(r) && AllBelow(r, base + 64)
      invariant Holds(r, s, seen, base) && s <= r && Agreed(f, r, |s|, |r|)
      invariant forall i <- Bits(rest) :: AllBelow(r, base + i)
      decreases |Bits(rest)|
    {
      ghost var j := LowestBits(rest);
      BelowUnfold(r, base + j);
      IncreasingSnoc(r, base + j);
      HoldsMore(r, s, Bits(w), Bits(rest), j, base);
      LowestIsAbove(r, Bits(rest), j, base);
      assert j in ALL;
      BelowSnoc(r, base + j, base + 64);
      var idx := (base + TrailingZeros(rest)) % LIMIT32;
      r := r + [idx];
      seen := Bits(w) - (Bits(rest) - {j});
      if !f(idx) {
        assert r[|r| - 1] == idx;
        return r, true, seen;
      }
      rest := Xor(rest, Lowest(rest));
    }
    NonzeroBits(rest);
    assert Bits(w) - {} == Bits(w);
  }

  /** f wants to go on after each of r[lo..hi]. */
  predicate Agreed(f: nat -> bool, r: seq<nat>, lo: nat, hi: nat)
    requires hi <= |r|
  {
    forall k | lo <= k < hi :: f(r[k])
  }

  lemma AddedCard(w: set<nat>, j: nat)
    ensures |w + {j}| == |w| + if w == w + {j} then 0 else 1
  {
    if j in w { assert w + {j} == w; }
  }

  lemma RemovedCard(w: set<nat>, j: nat)
    ensures |w - {j}| == |w| - if w == w - {j} then 0 else 1
  {
    if j !in w { assert w - {j} == w; }
  }

  lemma IncreasingNone()
    ensures Increasing([])
  {
  }

  lemma IncreasingSnoc(s: seq<nat>, x: nat)
    requires Increasing(s) && forall i <- s :: i < x
    ensures Increasing(s + [x])
  {
    forall i, j | 0 <= i < j < |s + [x]|
      ensures (s + [x])[i] < (s + [x])[j]
    {
      assert s[i] in s;
    }
  }

  ghost predicate Holds(r: seq<nat>, s: seq<nat>, w: set<nat>, base: nat) {
    forall i :: i in r <==> i in s || i in Shifted(w, base)
  }

  lemma HoldsMore(r: seq<nat>, s: seq<nat>, w: Word, rest: Word, j: nat, base: nat)
    requires rest <= w && j in rest && Holds(r, s, w - rest, base)
    ensures Holds(r + [base + j], s, w - (rest - {j}), base)
  {
    hide Shifted;
    ShiftOne(w, rest, j, base);
    InSnoc(r, base + j);
  }

  lemma HoldsNone(s: seq<nat>, w: Word, base: nat)
    ensures Holds(s, s, w - w, base)
  {
    NothingShifted(base);
    assert w - w == {};
  }

  ghost predicate AllBelow(s: seq<nat>, x: nat) {
    forall i <- s :: i < x
  }

  lemma BelowSnoc(s: seq<nat>, x: nat, y: nat)
    requires AllBelow(s, x) && x < y
    ensures AllBelow(s + [x], y)
  {
  }

  lemma LowestIsAbove(r: seq<nat>, rest: Word, j: nat, base: nat)
    requires j in rest && (forall i <- rest :: j <= i) && forall i <- rest :: AllBelow(r, base + i)
    ensures forall i <- rest - {j} :: AllBelow(r + [base + j], base + i)
  {
    forall i <- rest - {j}
      ensures AllBelow(r + [base + j], base + i)
    {
      BelowSnoc(r, base + j, base + i);
    }
  }

  lemma AllBelowMore(r: seq<nat>, base: nat, rest: Word)
    requires AllBelow(r, base)
    ensures forall i <- rest :: AllBelow(r, base + i)
  {
  }

  lemma BelowUnfold(r: seq<nat>, x: nat)
    requires AllBelow(r, x)
    ensures forall i <- r :: i < x
  {
  }

  lemma InSnoc(s: seq<nat>, x: nat)
    ensures forall i :: i in s + [x] <==> i in s || i == x
  {
  }

  lemma NothingShifted(base: nat)
    ensures Shifted({}, base) == {}
  {
  }

  predicate Increasing(s: seq<nat>) {
    forall i, j | 0 <= i < j < |s| :: s[i] < s[j]
  }

  lemma ShiftOne(all: Word, w: Word, j: nat, base: nat)
    requires w <= all && j in w
    ensures forall i :: i in Shifted(all - (w - {j}), base) <==> i in Shifted(all - w, base) || i == base + j
  {
    assert all - (w - {j}) == (all - w) + {j};
    forall i
      ensures i in Shifted((all - w) + {j}, base) <==> i in Shifted(all - w, base) || i == base + j
    {
      if i in Shifted((all - w) + {j}, base) && i != base + j {
        var y :| y in (all - w) + {j} && i == base + y;
        assert y in all - w;
      }
      if i == base + j { assert j in (all - w) + {j}; }
      if i in Shifted(all - w, base) {
        var y :| y in all - w && i == base + y;
        assert y in (all - w) + {j};
      }
    }
  }

  /** Empty blocks at the end change nothing. */
  lemma {:induction false} Padded(blocks: seq<Word>, n: nat)
    ensures Members(blocks + seq(n, _ => {})) == Members(blocks)
    ensures Total(blocks + seq(n, _ => {})) == Total(blocks)
  {
    hide Shifted;
    if n == 0 {
      assert blocks + seq(n, _ => {}) == blocks;
    } else {
      Padded(blocks, n - 1);
      var all, k := blocks + seq(n, _ => {}), |blocks| + n - 1;
      assert all[..k] == blocks + seq(n - 1, _ => {}) && all[k] == {};
      NothingShifted(64 * k);
    }
  }

  /** w | 1 << j, or w &^ 1 << j. */
  function WithBit(w: Word, j: nat, on: bool): Word
    requires j < 64
  {
    if on then w + {j} else w - {j}
  }

  lemma TotalSet(blocks: seq<Word>, k: nat, w: Word)
    requires k < |blocks|
    ensures Total(blocks[k := w]) == Total(blocks) + |w| - |blocks[k]|
  {
    hide Total;
    TotalMoves(blocks, blocks[k := w], k, k + 1);
  }

  lemma BitCard(w: Word, j: nat, on: bool)
    requires j < 64
    ensures |WithBit(w, j, on)| - |w| == if WithBit(w, j, on) == w then 0 else if on then 1 else -1
  {
    if on { AddedCard(w, j); } else { RemovedCard(w, j); }
  }

  lemma HasAt(blocks: seq<Word>, k: nat, j: nat)
    requires j < 64
    ensures 64 * k + j in Members(blocks) <==> k < |blocks| && j in blocks[k]
  {
    hide Members;
    MembersHas(blocks, 64 * k + j);
  }

  lemma OtherBit(blocks: seq<Word>, k: nat, j: nat, on: bool, x: nat)
    requires k < |blocks| && j < 64
    ensures x in Members(blocks[k := WithBit(blocks[k], j, on)]) <==>
      if x == 64 * k + j then on else x in Members(blocks)
  {
    hide Members;
    HasAt(blocks, x / 64, x % 64);
    HasAt(blocks[k := WithBit(blocks[k], j, on)], x / 64, x % 64);
  }

  predicate DiffersAt(a: set<nat>, b: set<nat>, i: nat, on: bool, x: nat) {
    x in b <==> if x == i then on else x in a
  }

  lemma SameButOne(a: set<nat>, b: set<nat>, i: nat, on: bool)
    requires forall x: nat :: DiffersAt(a, b, i, on, x)
    ensures b == if on then a + {i} else a - {i}
  {
    var c := if on then a + {i} else a - {i};
    forall x: nat
      ensures x in b <==> x in c
    {
      assert DiffersAt(a, b, i, on, x);
    }
  }

  /** Setting or clearing one bit changes one member and the count by what the
      word's change shows. */
  lemma BitSetTo(blocks: seq<Word>, k: nat, j: nat, on: bool)
    requires k < |blocks| && j < 64
    ensures var w, i := WithBit(blocks[k], j, on), 64 * k + j;
            && Members(blocks[k := w]) == (if on then Members(blocks) + {i} else Members(blocks) - {i})
            && Total(blocks[k := w]) == Total(blocks) + (if w == blocks[k] then 0 else if on then 1 else -1)
            && (w == blocks[k] ==> blocks[k := w] == blocks)
  {
    hide Members;
    hide Total;
    hide WithBit;
    var w, i := WithBit(blocks[k], j, on), 64 * k + j;
    TotalSet(blocks, k, w);
    BitCard(blocks[k], j, on);
    var a, b := Members(blocks), Members(blocks[k := w]);
    forall x: nat
      ensures DiffersAt(a, b, i, on, x)
    {
      OtherBit(blocks, k, j, on, x);
    }
    SameButOne(a, b, i, on);
    if w == blocks[k] { assert blocks[k := w] == blocks; }
  }

  lemma SubsetCard(a: set<nat>, b: set<nat>)
    requires a <= b
    ensures |a| <= |b|
  {
    assert b == a + (b - a);
  }

  lemma WordCard(w: Word)
    ensures |w| <= 64
  {
    hide Range;
    SubsetCard(w, ALL);
    RangeCard(0, 64);
  }

}
