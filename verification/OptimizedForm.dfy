/** What an optimized program looks like, said on the text of its instructions
    alone: opcodes and limits are numbers and no function of the passes is used.

    The second half shows that a program that none of the passes can change has
    this form. */
module OptimizedForm {
  import opened Bpf
  import opened Validator
  import opened Simulation
  import opened Removal
  import opened RedundantLoads
  import opened JumpPasses
  import opened ReturnPass

  // ---------------------------------------------------------------------
  // The form
  // ---------------------------------------------------------------------

  /** A conditional jump. */
  predicate Branches(i: Instruction) {
    i.op & 0x07 == 0x05 && i.op & 0xf0 != 0x00
  }

  /** A direct jump. */
  predicate Goes(i: Instruction) {
    i.op & 0x07 == 0x05 && i.op & 0xf0 == 0x00
  }

  /** A return. */
  predicate Ends(i: Instruction) {
    i.op & 0x07 == 0x06
  }

  predicate WritesA(i: Instruction) {
    i.op & 0x07 == 0x00 || i.op & 0x07 == 0x04 || i.op == 0x07
  }

  /** The instruction at q may be followed by the one at pc. */
  predicate Leads(p: seq<Instruction>, q: nat, pc: nat)
    requires q < |p|
  {
    var i := p[q];
    if Branches(i) then pc == q + 1 + i.jt || pc == q + 1 + i.jf
    else if Goes(i) then pc == q + 1 + i.k
    else !Ends(i) && pc == q + 1
  }

  /** A jump of off at pc lands on a direct jump whose own target is within the limit. */
  predicate Chained(p: seq<Instruction>, pc: nat, off: nat, limit: nat) {
    var t := pc + 1 + off;
    t < |p| && Goes(p[t]) && off + 1 + p[t].k <= limit
  }

  /** No jump at pc could be shortened, merged or dropped. */
  predicate TightJump(p: seq<Instruction>, pc: nat)
    requires pc < |p|
  {
    var i := p[pc];
    && (Branches(i) ==> i.jt != i.jf && !Chained(p, pc, i.jt, 0xff) && !Chained(p, pc, i.jf, 0xff))
    && (Goes(i) ==> i.k != 0 && !Chained(p, pc, i.k, 0xffff) && (pc + 1 + i.k < |p| ==> !Ends(p[pc + 1 + i.k])))
  }

  /** Some earlier instruction leads to pc. */
  predicate LedTo(p: seq<Instruction>, pc: nat) {
    exists q: nat | q < pc && q < |p| :: Leads(p, q, pc)
  }

  ghost predicate OnlyPredecessor(p: seq<Instruction>, q: nat, pc: nat) {
    forall r: nat | r < |p| :: Leads(p, r, pc) <==> r == q
  }

  /** A path on which each step is the only way to the next; its start writes A
      and nothing on the way does. */
  ghost predicate OnlyWay(p: seq<Instruction>, walk: seq<nat>) {
    && |walk| >= 2
    && (forall j | 0 <= j < |walk| :: walk[j] < |p|)
    && WritesA(p[walk[0]])
    && (forall j | 0 < j < |walk| - 1 :: !WritesA(p[walk[j]]))
    && (forall j | 0 < j < |walk| :: OnlyPredecessor(p, walk[j - 1], walk[j]))
  }

  /** The same load into A. */
  predicate SameLoad(i: Instruction, j: Instruction) {
    i.op == j.op && i.op & 0x07 == 0x00 && (i.op & 0xe0 == 0x80 || i.k == j.k)
  }

  ghost predicate NoRepeatedLoads(p: seq<Instruction>) {
    forall walk: seq<nat> | OnlyWay(p, walk) :: !SameLoad(p[walk[|walk| - 1]], p[walk[0]])
  }

  predicate SameReturn(i: Instruction, j: Instruction) {
    Ends(i) && i.op == j.op && (i.op == 0x16 || i.k == j.k)
  }

  predicate FallsInto(p: seq<Instruction>, x: nat) {
    0 < x <= |p| && !Ends(p[x - 1]) && !Branches(p[x - 1]) && !Goes(p[x - 1])
  }

  predicate AimsAt(p: seq<Instruction>, pc: nat, x: nat)
    requires pc < |p|
  {
    var i := p[pc];
    || (Branches(i) && (x == pc + 1 + i.jt || x == pc + 1 + i.jf))
    || (Goes(i) && x == pc + 1 + i.k)
  }

  /** y is within reach of the jump at pc. */
  predicate Reaches(p: seq<Instruction>, pc: nat, y: nat)
    requires pc < |p|
  {
    pc < y && y - pc - 1 <= if Branches(p[pc]) then 0xff else 0xffff
  }

  /** Some jump to x cannot be made to jump to y. */
  predicate KeepsApart(p: seq<Instruction>, x: nat, y: nat) {
    exists pc | 0 <= pc < |p| :: AimsAt(p, pc, x) && !Reaches(p, pc, y)
  }

  /** Of two equal returns, one that can only be jumped to could not be replaced by
      the other: a jump to it is too far away. */
  predicate ReturnsApart(p: seq<Instruction>) {
    forall x: nat, y: nat | x < |p| && y < |p| && x != y && SameReturn(p[x], p[y]) && !FallsInto(p, x) ::
      KeepsApart(p, x, y) || (!FallsInto(p, y) && KeepsApart(p, y, x))
  }

  ghost predicate Optimized(p: seq<Instruction>) {
    && (forall pc | 0 <= pc < |p| :: TightJump(p, pc))
    && (forall pc | 0 < pc < |p| :: LedTo(p, pc))
    && NoRepeatedLoads(p)
    && ReturnsApart(p)
  }

  // ---------------------------------------------------------------------
  // A program no pass changes has the form
  // ---------------------------------------------------------------------

  lemma Classified(p: seq<Instruction>, q: nat, pc: nat)
    requires q < |p|
    ensures Branches(p[q]) == IsConditionalJump(p[q]) && Goes(p[q]) == IsUnconditionalJump(p[q])
    ensures Ends(p[q]) == IsReturn(p[q]) && WritesA(p[q]) == ModifiesRegisterA(p[q])
    ensures Leads(p, q, pc) <==> pc in Successors(p[q], q)
    ensures AimsAt(p, q, pc) <==> JumpsTo(p[q], q, pc)
  {
  }

  lemma JumpsAreTight(p: seq<Instruction>, pc: nat)
    requires pc < |p| && OffsetsInside(p, pc)
    requires ThreadedConditional(p, pc) == p[pc] && MergedTarget(p[pc]) == p[pc]
    requires ThreadedDirect(p, pc) == p[pc] && CopiedReturn(p, pc) == p[pc] && !IsZeroJump(p[pc])
    ensures TightJump(p, pc)
  {
  }

  lemma ReachableIsLedTo(p: seq<Instruction>, pc: nat)
    requires Reachable(p, pc) && pc > 0
    ensures LedTo(p, pc)
  {
    var q: nat :| q < pc && q < |p| && pc in Successors(p[q], q);
    Classified(p, q, pc);
  }

  lemma OnlyPredecessorSet(p: seq<Instruction>, q: nat, pc: nat)
    requires q < |p| && OnlyPredecessor(p, q, pc)
    ensures Predecessors(p, pc) == {q}
  {
    forall r: nat | r < |p|
      ensures r in Predecessors(p, pc) <==> r == q
    {
      Classified(p, r, pc);
    }
  }

  lemma {:induction false} WalkFindsStart(p: seq<Instruction>, walk: seq<nat>)
    requires OnlyWay(p, walk)
    ensures LastModifiedA(p, walk[|walk| - 1]) == walk[0]
    decreases |walk|
  {
    var n := |walk|;
    var q := walk[n - 2];
    assert OnlyPredecessor(p, q, walk[n - 1]);
    OnlyPredecessorSet(p, q, walk[n - 1]);
    OnlyIsUnique(Predecessors(p, walk[n - 1]), q);
    Classified(p, q, 0);
    if n > 2 {
      assert OnlyWay(p, walk[..n - 1]);
      WalkFindsStart(p, walk[..n - 1]);
    }
  }

  lemma NoRedundantLoads(p: seq<Instruction>, walk: seq<nat>)
    requires OnlyWay(p, walk) && !RedundantLoad(p, walk[|walk| - 1])
    ensures !SameLoad(p[walk[|walk| - 1]], p[walk[0]])
  {
    WalkFindsStart(p, walk);
    hide OnlyWay;
    hide LastModifiedA;
  }

  // ---------------------------------------------------------------------
  // Returns
  // ---------------------------------------------------------------------

  /** Jumps alone make a return less popular than falling into it would. */
  lemma {:induction false} JumpedToIsUnpopular(p: seq<Instruction>, x: nat, c: nat)
    requires c <= x < |p| && !CanFallThrough(p, x)
    requires forall pc | 0 <= pc < |p| && IsConditionalJump(p[pc]) :: p[pc].jt != p[pc].jf
    ensures PopularityBelow(p, x, c) <= c
  {
    if c > 0 {
      JumpedToIsUnpopular(p, x, c - 1);
    }
  }

  lemma FallenIntoIsPopular(p: seq<Instruction>, y: nat)
    requires y < |p| && CanFallThrough(p, y)
    ensures Popularity(p, y) >= |p|
  {
    assert PopularityBelow(p, y, y) == PopularityBelow(p, y, y - 1) + Contribution(p[y - 1], y - 1, y, |p|);
  }

  lemma FallsIntoIff(p: seq<Instruction>, x: nat)
    requires x < |p|
    ensures FallsInto(p, x) <==> CanFallThrough(p, x)
  {
    if x > 0 {
      Classified(p, x - 1, x);
    }
  }

  /** Every return but the first instruction has something leading to it, and what
      leads to a return that is not fallen into is a jump. */
  lemma JumpedTo(p: seq<Instruction>, x: nat)
    requires 0 < x < |p| && LedTo(p, x) && !FallsInto(p, x)
    ensures exists pc | 0 <= pc < |p| && pc < x :: JumpsTo(p[pc], pc, x)
  {
    var q: nat :| q < x && q < |p| && Leads(p, q, x);
    Classified(p, q, x);
    assert JumpsTo(p[q], q, x);
  }

  lemma NotRewritableIsApart(p: seq<Instruction>, x: nat, y: nat)
    requires 0 < x < |p| && LedTo(p, x) && !FallsInto(p, x) && !Rewritable(p, x, y)
    ensures KeepsApart(p, x, y)
  {
    JumpedTo(p, x);
    var pc :| 0 <= pc < |p| && pc < x && !CanRedirect(p[pc], pc, x, y);
    Classified(p, pc, x);
    assert AimsAt(p, pc, x) && !Reaches(p, pc, y);
  }

  lemma LedToMeansOn(p: seq<Instruction>)
    requires |p| > 1 && LedTo(p, 1)
    ensures !Ends(p[0])
  {
  }

  lemma EqualReturnsApart(p: seq<Instruction>, x: nat, y: nat)
    requires FlowsInside(p) && ReturnsSettled(p)
    requires forall pc | 0 < pc < |p| :: LedTo(p, pc)
    requires forall pc | 0 <= pc < |p| && IsConditionalJump(p[pc]) :: p[pc].jt != p[pc].jf
    requires x < |p| && y < |p| && x != y && SameReturn(p[x], p[y]) && !FallsInto(p, x)
    ensures KeepsApart(p, x, y) || (!FallsInto(p, y) && KeepsApart(p, y, x))
  {
    LedToMeansOn(p);
    ReturnOpcode(p[x]);
    Classified(p, x, 0);
    Classified(p, y, 0);
    assert Equal(p[x], p[y]) && Equal(p[y], p[x]);
    FallsIntoIff(p, x);
    FallsIntoIff(p, y);
    hide Rewritable;
    hide KeepsApart;
    hide LedTo;
    hide FallsInto;
    hide CanFallThrough;
    if CanFallThrough(p, y) {
      JumpedToIsUnpopular(p, x, x);
      FallenIntoIsPopular(p, y);
      NotRewritableIsApart(p, x, y);
    } else {
      hide Popularity;
      if LessPopular(p, x, y) {
        NotRewritableIsApart(p, x, y);
      } else {
        NotRewritableIsApart(p, y, x);
      }
    }
  }

  lemma SettledIsOptimized(p: seq<Instruction>)
    requires FlowsInside(p)
    requires IsThreadedConditionals(p, p) && IsMergedTargets(p, p) && IsThreadedDirects(p, p) && IsCopiedReturns(p, p)
    requires forall pc | 0 <= pc < |p| :: !IsZeroJump(p[pc]) && Reachable(p, pc) && !RedundantLoad(p, pc)
    requires ReturnsSettled(p)
    ensures Optimized(p)
  {
    hide FlowsInside;
    hide Reachable;
    hide ReturnsSettled;
    hide LedTo;
    hide TightJump;
    forall pc | 0 <= pc < |p|
      ensures TightJump(p, pc) && (pc > 0 ==> LedTo(p, pc))
      ensures IsConditionalJump(p[pc]) ==> p[pc].jt != p[pc].jf
    {
      JumpsAreTight(p, pc);
      assert p[pc] == MergedTarget(p[pc]);
      if pc > 0 { ReachableIsLedTo(p, pc); }
    }
    hide IsThreadedConditionals;
    hide IsThreadedDirects;
    hide IsMergedTargets;
    hide IsCopiedReturns;
    assert NoRepeatedLoads(p) by {
      hide SameLoad;
      hide RedundantLoad;
      forall walk: seq<nat> | OnlyWay(p, walk)
        ensures !SameLoad(p[walk[|walk| - 1]], p[walk[0]])
      {
        NoRedundantLoads(p, walk);
      }
    }
    hide NoRepeatedLoads;
    hide RedundantLoad;
    assert ReturnsApart(p) by {
      hide KeepsApart;
      hide FallsInto;
      hide SameReturn;
      forall x: nat, y: nat | x < |p| && y < |p| && x != y && SameReturn(p[x], p[y]) && !FallsInto(p, x)
        ensures KeepsApart(p, x, y) || (!FallsInto(p, y) && KeepsApart(p, y, x))
      {
        EqualReturnsApart(p, x, y);
      }
    }
  }
}
