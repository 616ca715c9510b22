/** optimizeJumpsToSmallestSetOfReturns (optimizer.go): jumps to a return are
    sent to another, more popular return of the same value, so that the first
    one becomes unreachable. */
module ReturnPass {
  import opened Bpf
  import opened Validator
  import opened Simulation
  import opened Removal
  import opened Progress
  import opened JumpPasses

  // ---------------------------------------------------------------------
  // rewriteAllJumpsToReturn
  // ---------------------------------------------------------------------

  predicate JumpsTo(i: Instruction, pc: nat, target: nat) {
    if IsConditionalJump(i) then pc + i.jt + 1 == target || pc + i.jf + 1 == target
    else IsUnconditionalJump(i) && pc + i.k + 1 == target
  }

  /** The needed offset fits the kind of jump; it is negative when the jump
      would have to go backwards. */
  predicate CanRedirect(i: Instruction, pc: nat, from: nat, to: nat) {
    var neededOffset := to - pc - 1;
    JumpsTo(i, pc, from) ==>
      0 <= neededOffset <= (if IsConditionalJump(i) then MAX_CONDITIONAL_JUMP_OFFSET else MAX_UNCONDITIONAL_JUMP_OFFSET)
  }

  function RedirectedJump(i: Instruction, pc: nat, from: nat, to: nat): Instruction
    requires CanRedirect(i, pc, from, to)
  {
    if IsConditionalJump(i) then
      i.(jt := if pc + i.jt + 1 == from then to - pc - 1 else i.jt,
         jf := if pc + i.jf + 1 == from then to - pc - 1 else i.jf)
    else if IsUnconditionalJump(i) then
      i.(k := if pc + i.k + 1 == from then to - pc - 1 else i.k)
    else i
  }

  ghost predicate CanRedirectAll(p: seq<Instruction>, from: nat, to: nat) {
    forall pc | 0 <= pc < |p| && pc < from :: CanRedirect(p[pc], pc, from, to)
  }

  /** All jumps to `from` among the first c instructions sent to `to`. */
  ghost function RedirectedBelow(p: seq<Instruction>, from: nat, to: nat, c: nat): seq<Instruction>
    requires CanRedirectAll(p, from, to) && c <= from
  {
    seq(|p|, pc requires 0 <= pc < |p| => if pc < c then RedirectedJump(p[pc], pc, from, to) else p[pc])
  }

  ghost function Redirected(p: seq<Instruction>, from: nat, to: nat): seq<Instruction>
    requires CanRedirectAll(p, from, to)
  {
    RedirectedBelow(p, from, to, from)
  }

  /** All or nothing, and not vacuously. */
  ghost predicate Rewritable(p: seq<Instruction>, from: nat, to: nat) {
    && CanRedirectAll(p, from, to)
    && exists pc | 0 <= pc < |p| && pc < from :: JumpsTo(p[pc], pc, from)
  }

  datatype JumpRewrite = JumpRewrite(pc: nat, jumpType: JumpType, rewriteTo: u32)

  /** The rewrite operations the scan appends for one instruction. */
  function RewritesAt(i: Instruction, pc: nat, from: nat, to: nat): seq<JumpRewrite>
    requires CanRedirect(i, pc, from, to)
  {
    if IsConditionalJump(i) then
      (if pc + i.jt + 1 == from then [JumpRewrite(pc, JumpTrue, to - pc - 1)] else [])
      + (if pc + i.jf + 1 == from then [JumpRewrite(pc, JumpFalse, to - pc - 1)] else [])
    else if IsUnconditionalJump(i) && pc + i.k + 1 == from then [JumpRewrite(pc, JumpDirect, to - pc - 1)]
    else []
  }

  ghost function RewritesBelow(p: seq<Instruction>, from: nat, to: nat, c: nat): seq<JumpRewrite>
    requires c <= |p| && forall pc | 0 <= pc < c :: CanRedirect(p[pc], pc, from, to)
  {
    if c == 0 then [] else RewritesBelow(p, from, to, c - 1) + RewritesAt(p[c - 1], c - 1, from, to)
  }

  predicate Applicable(op: JumpRewrite, n: nat) {
    op.pc < n && (op.jumpType != JumpDirect ==> op.rewriteTo <= MAX_U8)
  }

  function Rewrite(i: Instruction, op: JumpRewrite): Instruction
    requires op.jumpType != JumpDirect ==> op.rewriteTo <= MAX_U8
  {
    match op.jumpType
    case JumpTrue => i.(jt := op.rewriteTo)
    case JumpFalse => i.(jf := op.rewriteTo)
    case JumpDirect => i.(k := op.rewriteTo)
  }

  ghost predicate AllApplicable(ops: seq<JumpRewrite>, n: nat) {
    forall k | 0 <= k < |ops| :: Applicable(ops[k], n)
  }

  /** The second loop: run the rewrite operations in order. */
  ghost function Rewritten(p: seq<Instruction>, ops: seq<JumpRewrite>): (r: seq<Instruction>)
    requires AllApplicable(ops, |p|)
    ensures |r| == |p|
  {
    if ops == [] then p
    else
      var op := ops[|ops| - 1];
      var r := Rewritten(p, ops[..|ops| - 1]);
      r[op.pc := Rewrite(r[op.pc], op)]
  }

  lemma RewrittenSnoc(p: seq<Instruction>, ops: seq<JumpRewrite>, op: JumpRewrite)
    requires AllApplicable(ops, |p|) && Applicable(op, |p|)
    ensures AllApplicable(ops + [op], |p|)
    ensures var r := Rewritten(p, ops);
            Rewritten(p, ops + [op]) == r[op.pc := Rewrite(r[op.pc], op)]
  {
    assert (ops + [op])[..|ops|] == ops;
  }

  lemma RewriteOneJump(p: seq<Instruction>, from: nat, to: nat, pc: nat, ops: seq<JumpRewrite>)
    requires pc < |p| && CanRedirect(p[pc], pc, from, to) && AllApplicable(ops, |p|)
    requires Rewritten(p, ops)[pc] == p[pc]
    ensures AllApplicable(ops + RewritesAt(p[pc], pc, from, to), |p|)
    ensures Rewritten(p, ops + RewritesAt(p[pc], pc, from, to))
            == Rewritten(p, ops)[pc := RedirectedJump(p[pc], pc, from, to)]
  {
    hide IsConditionalJump;
    hide IsUnconditionalJump;
    hide Rewritten;
    var i, more := p[pc], RewritesAt(p[pc], pc, from, to);
    if |more| == 0 {
      assert ops + more == ops;
      assert RedirectedJump(i, pc, from, to) == i;
    } else if |more| == 1 {
      assert more == [more[0]];
      RewrittenSnoc(p, ops, more[0]);
    } else {
      RewrittenSnoc(p, ops, more[0]);
      RewrittenSnoc(p, ops + [more[0]], more[1]);
      assert ops + more == ops + [more[0]] + [more[1]];
    }
  }

  /** The collected operations do exactly what the pointwise redirection does. */
  lemma {:induction false} RewritesAreRedirections(p: seq<Instruction>, from: nat, to: nat, c: nat)
    requires CanRedirectAll(p, from, to) && c <= from && c <= |p|
    ensures AllApplicable(RewritesBelow(p, from, to, c), |p|)
    ensures Rewritten(p, RewritesBelow(p, from, to, c)) == RedirectedBelow(p, from, to, c)
  {
    hide RedirectedJump;
    hide RewritesAt;
    hide CanRedirect;
    if c == 0 {
      assert RedirectedBelow(p, from, to, 0) == p;
    } else {
      RewritesAreRedirections(p, from, to, c - 1);
      var pc := c - 1;
      assert CanRedirect(p[pc], pc, from, to);
      var ops, q := RewritesBelow(p, from, to, pc), RedirectedBelow(p, from, to, pc);
      RewriteOneJump(p, from, to, pc, ops);
      assert RedirectedBelow(p, from, to, c) == q[pc := RedirectedJump(p[pc], pc, from, to)];
    }
  }

  lemma NoRewriteIffNoJump(i: Instruction, pc: nat, from: nat, to: nat)
    requires CanRedirect(i, pc, from, to)
    ensures RewritesAt(i, pc, from, to) == [] <==> !JumpsTo(i, pc, from)
  {
    hide IsConditionalJump;
    hide IsUnconditionalJump;
  }

  lemma {:induction false} NoRewritesIffNoJumps(p: seq<Instruction>, from: nat, to: nat, c: nat)
    requires CanRedirectAll(p, from, to) && c <= from && c <= |p|
    ensures RewritesBelow(p, from, to, c) == [] <==> forall pc | 0 <= pc < c :: !JumpsTo(p[pc], pc, from)
  {
    hide RewritesAt;
    hide JumpsTo;
    hide CanRedirect;
    if c > 0 {
      NoRewritesIffNoJumps(p, from, to, c - 1);
      assert CanRedirect(p[c - 1], c - 1, from, to);
      NoRewriteIffNoJump(p[c - 1], c - 1, from, to);
    }
  }

  /** The body of the first loop, for one instruction. */
  method CollectRewritesAt(ins: Instruction, pc: nat, fromPC: nat, toPC: nat, ops: seq<JumpRewrite>)
    returns (feasible: bool, rewriteOps: seq<JumpRewrite>)
    ensures feasible <==> CanRedirect(ins, pc, fromPC, toPC)
    ensures feasible ==> rewriteOps == ops + RewritesAt(ins, pc, fromPC, toPC)
  {
    hide IsConditionalJump;
    hide IsUnconditionalJump;
    rewriteOps := ops;
    var neededOffset := toPC - pc - 1;
    if IsConditionalJump(ins) {
      if pc + ins.jt + 1 == fromPC {
        if neededOffset < 0 || neededOffset > MAX_CONDITIONAL_JUMP_OFFSET {
          return false, ops;
        }
        rewriteOps := rewriteOps + [JumpRewrite(pc, JumpTrue, neededOffset)];
      }
      if pc + ins.jf + 1 == fromPC {
        if neededOffset < 0 || neededOffset > MAX_CONDITIONAL_JUMP_OFFSET {
          return false, ops;
        }
        rewriteOps := rewriteOps + [JumpRewrite(pc, JumpFalse, neededOffset)];
      }
    } else if IsUnconditionalJump(ins) {
      if pc + ins.k + 1 == fromPC {
        if neededOffset < 0 || neededOffset > MAX_UNCONDITIONAL_JUMP_OFFSET {
          return false, ops;
        }
        rewriteOps := rewriteOps + [JumpRewrite(pc, JumpDirect, neededOffset)];
      }
    }
    return true, rewriteOps;
  }

  /** The first loop: collect the operations, or give up. */
  method CollectRewrites(insns: array<Instruction>, n: nat, fromPC: nat, toPC: nat)
    returns (feasible: bool, rewriteOps: seq<JumpRewrite>)
    requires n <= insns.Length && fromPC < n
    ensures feasible <==> CanRedirectAll(insns[..n], fromPC, toPC)
    ensures feasible ==> rewriteOps == RewritesBelow(insns[..n], fromPC, toPC, fromPC)
  {
    hide CanRedirect;
    hide RewritesAt;
    ghost var p := insns[..n];
    feasible, rewriteOps := true, [];
    for pc := 0 to fromPC
      invariant feasible
      invariant forall j | 0 <= j < pc :: CanRedirect(p[j], j, fromPC, toPC)
      invariant rewriteOps == RewritesBelow(p, fromPC, toPC, pc)
    {
      assert insns[pc] == p[pc];
      feasible, rewriteOps := CollectRewritesAt(insns[pc], pc, fromPC, toPC, rewriteOps);
      if !feasible {
        assert !CanRedirect(p[pc], pc, fromPC, toPC);
        return;
      }
    }
  }

  method RewriteAllJumpsToReturn(insns: array<Instruction>, n: nat, fromPC: nat, toPC: nat) returns (rewritten: bool)
    requires n <= insns.Length && fromPC < n && toPC < n
    requires IsReturn(insns[fromPC]) && IsReturn(insns[toPC]) && Equal(insns[fromPC], insns[toPC])
    modifies insns
    ensures rewritten <==> Rewritable(old(insns[..n]), fromPC, toPC)
    ensures insns[..n] == if rewritten then Redirected(old(insns[..n]), fromPC, toPC) else old(insns[..n])
    ensures insns[n..] == old(insns[n..])
  {
    ghost var p := insns[..n];
    var feasible, rewriteOps := CollectRewrites(insns, n, fromPC, toPC);
    if !feasible {
      return false;
    }
    hide CanRedirect;
    NoRewritesIffNoJumps(p, fromPC, toPC, fromPC);
    RewritesAreRedirections(p, fromPC, toPC, fromPC);
    if |rewriteOps| == 0 {
      return false;
    }
    ApplyRewrites(insns, n, rewriteOps);
    return true;
  }

  method ApplyRewrites(insns: array<Instruction>, n: nat, rewriteOps: seq<JumpRewrite>)
    requires n <= insns.Length && AllApplicable(rewriteOps, n)
    modifies insns
    ensures insns[..n] == Rewritten(old(insns[..n]), rewriteOps)
    ensures insns[n..] == old(insns[n..])
  {
    ghost var p := insns[..n];
    for k := 0 to |rewriteOps|
      invariant insns[..n] == Rewritten(p, rewriteOps[..k])
      invariant insns[n..] == old(insns[n..])
    {
      var op := rewriteOps[k];
      ghost var before := insns[..n];
      assert Applicable(op, n);
      RewrittenSnoc(p, rewriteOps[..k], op);
      assert rewriteOps[..k + 1] == rewriteOps[..k] + [op];
      insns[op.pc] := Rewrite(insns[op.pc], op);
      assert insns[..n] == before[op.pc := Rewrite(before[op.pc], op)];
    }
    assert rewriteOps[..|rewriteOps|] == rewriteOps;
  }

  // ---------------------------------------------------------------------
  // What the pass keeps while it merges returns
  // ---------------------------------------------------------------------

  /** Control can reach pc from the instruction before it without a jump. */
  predicate CanFallThrough(p: seq<Instruction>, pc: nat) {
    0 < pc < |p| && Class(p[pc - 1]) != RET && Class(p[pc - 1]) != JMP
  }

  /** Only jump offsets differ. */
  ghost predicate SameShape(p: seq<Instruction>, q: seq<Instruction>) {
    && |q| == |p|
    && forall pc | 0 <= pc < |p| :: q[pc].op == p[pc].op && (IsJump(p[pc]) || q[pc] == p[pc])
  }

  /** Nothing leads to x any more. */
  ghost predicate Orphan(p: seq<Instruction>, q: seq<Instruction>, x: nat) {
    && 0 < x < |p|
    && !CanFallThrough(p, x)
    && forall pc | 0 <= pc < |q| :: !JumpsTo(q[pc], pc, x)
  }

  /** q is p with the jumps to the orphans sent to other returns. */
  ghost predicate Merging(p: seq<Instruction>, q: seq<Instruction>, orphans: set<nat>) {
    && FlowsInside(q)
    && Improves(p, q)
    && SameShape(p, q)
    && (forall x | x in orphans :: Orphan(p, q, x))
    && (orphans == {} ==> q == p)
  }

  lemma MergingStart(p: seq<Instruction>)
    requires FlowsInside(p)
    ensures Merging(p, p, {})
  {
    hide FlowsInside;
    ImprovesReflexive(p);
  }

  lemma RedirectedShortcut(q: seq<Instruction>, from: nat, to: nat, pc: nat)
    requires from < |q| && to < |q| && IsReturn(q[from]) && Equal(q[from], q[to])
    requires pc < |q| && pc < from && OffsetsInside(q, pc) && CanRedirect(q[pc], pc, from, to)
    ensures Shortcut(q, RedirectedJump(q[pc], pc, from, to), pc)
  {
    hide Equal;
    hide IsConditionalJump;
    hide IsUnconditionalJump;
    hide IsReturn;
  }

  lemma RedirectedRetargets(q: seq<Instruction>, from: nat, to: nat)
    requires FlowsInside(q) && from < |q| && to < |q| && IsReturn(q[from]) && Equal(q[from], q[to])
    requires CanRedirectAll(q, from, to)
    ensures Retargeted(q, Redirected(q, from, to))
  {
    hide FlowsInside;
    hide Equal;
    hide IsReturn;
    hide Shortcut;
    hide CanRedirect;
    hide RedirectedJump;
    hide OffsetsInside;
    forall pc | 0 <= pc < |q|
      ensures Shortcut(q, Redirected(q, from, to)[pc], pc)
    {
      if pc < from {
        assert CanRedirect(q[pc], pc, from, to);
        OffsetsAreInside(q, pc);
        RedirectedShortcut(q, from, to, pc);
      } else {
        SameIsShortcut(q, pc);
      }
    }
  }

  lemma SameIsShortcut(q: seq<Instruction>, pc: nat)
    requires pc < |q|
    ensures Shortcut(q, q[pc], pc)
  {
  }

  lemma RedirectedJumpShape(i: Instruction, pc: nat, from: nat, to: nat)
    requires CanRedirect(i, pc, from, to)
    ensures var i' := RedirectedJump(i, pc, from, to);
            && i'.op == i.op
            && (IsJump(i) || i' == i)
            && (forall x :: JumpsTo(i', pc, x) ==> (x != from && JumpsTo(i, pc, x)) || x == to)
            && (from != to ==> !JumpsTo(i', pc, from))
  {
  }

  lemma ForwardJump(i: Instruction, pc: nat, x: nat)
    requires JumpsTo(i, pc, x)
    ensures pc < x
  {
    hide IsConditionalJump;
    hide IsUnconditionalJump;
  }

  /** One successful rewrite: `from` becomes an orphan, and the orphans so far
      stay orphans because none of them is the new target. */
  lemma MergeStep(p: seq<Instruction>, q: seq<Instruction>, orphans: set<nat>, from: nat, to: nat)
    requires Merging(p, q, orphans)
    requires from < |q| && to < |q| && from != to && to !in orphans
    requires IsReturn(q[from]) && Equal(q[from], q[to])
    requires !CanFallThrough(p, from) && Rewritable(q, from, to)
    ensures Merging(p, Redirected(q, from, to), orphans + {from})
  {
    hide FlowsInside;
    hide Improves;
    hide Equal;
    hide IsReturn;
    hide JumpsTo;
    hide CanRedirect;
    hide RedirectedJump;
    hide CanFallThrough;
    hide IsJump;
    var q' := Redirected(q, from, to);
    RedirectedRetargets(q, from, to);
    RetargetedImproves(q, q');
    ImprovesTransitive(p, q, q');
    forall pc | 0 <= pc < |q|
      ensures q'[pc].op == q[pc].op && (IsJump(q[pc]) || q'[pc] == q[pc])
      ensures forall x :: JumpsTo(q'[pc], pc, x) ==> (x != from && JumpsTo(q[pc], pc, x)) || x == to
      ensures !JumpsTo(q'[pc], pc, from)
    {
      if pc < from {
        assert CanRedirect(q[pc], pc, from, to);
        RedirectedJumpShape(q[pc], pc, from, to);
      } else {
        forall x: nat | JumpsTo(q[pc], pc, x) ensures x > from { ForwardJump(q[pc], pc, x); }
      }
    }
    SameShapeStep(p, q, q');
    var witness' :| 0 <= witness' < |q| && witness' < from && JumpsTo(q[witness'], witness', from);
  }

  lemma SameShapeStep(p: seq<Instruction>, q: seq<Instruction>, q': seq<Instruction>)
    requires SameShape(p, q) && |q'| == |q|
    requires forall pc | 0 <= pc < |q| :: q'[pc].op == q[pc].op && (IsJump(q[pc]) || q'[pc] == q[pc])
    ensures SameShape(p, q')
  {
    assert forall pc | 0 <= pc < |q| :: IsJump(q[pc]) == IsJump(p[pc]);
  }

  lemma OrphanUnreachable(p: seq<Instruction>, q: seq<Instruction>, x: nat)
    requires SameShape(p, q) && Orphan(p, q, x)
    ensures !Reachable(q, x)
  {
    forall y: nat | y < x && y < |q|
      ensures x !in Successors(q[y], y)
    {
      assert !JumpsTo(q[y], y, x);
      assert Class(q[y]) == Class(p[y]);
    }
  }

  /** Where every instruction of p was reachable, the merge makes progress. */
  lemma MergingProgress(p: seq<Instruction>, q: seq<Instruction>, orphans: set<nat>)
    requires Merging(p, q, orphans) && orphans != {}
    requires forall pc | 0 <= pc < |p| :: Reachable(p, pc)
    ensures MakesProgress(p, q)
  {
    hide FlowsInside;
    hide Improves;
    hide Reachable;
    hide MakesProgress;
    var x :| x in orphans;
    OrphanUnreachable(p, q, x);
    LosesReachable(p, q, x);
  }

  lemma MergingNoNewPlain(p: seq<Instruction>, q: seq<Instruction>)
    requires SameShape(p, q)
    ensures NoNewPlain(p, q)
  {
    assert forall pc | 0 <= pc < |p| :: IsJump(q[pc]) == IsJump(p[pc]);
  }

  // ---------------------------------------------------------------------
  // Popularity and the groups of equal returns
  // ---------------------------------------------------------------------

  /** What the instruction at pc2 adds to the popularity of the return at pc. */
  function Contribution(i: Instruction, pc2: nat, pc: nat, n: nat): nat {
    if Class(i) == RET then 0
    else if Class(i) == JMP then
      if IsConditionalJump(i) then
        (if pc2 + i.jt + 1 == pc then 1 else 0) + (if pc2 + i.jf + 1 == pc then 1 else 0)
      else if pc2 + i.k + 1 == pc then 1 else 0
    else if pc2 == pc - 1 then n
    else 0
  }

  function PopularityBelow(p: seq<Instruction>, pc: nat, c: nat): nat
    requires c <= |p|
  {
    if c == 0 then 0 else PopularityBelow(p, pc, c - 1) + Contribution(p[c - 1], c - 1, pc, |p|)
  }

  function Popularity(p: seq<Instruction>, pc: nat): nat
    requires pc <= |p|
  {
    PopularityBelow(p, pc, pc)
  }

  /** Ascending popularity, then ascending pc. */
  predicate LessPopular(p: seq<Instruction>, x: nat, y: nat)
    requires x <= |p| && y <= |p|
  {
    Popularity(p, x) < Popularity(p, y) || (Popularity(p, x) == Popularity(p, y) && x < y)
  }

  method MeasurePopularity(insns: array<Instruction>, n: nat, pc: nat)
    returns (popularity: nat, canBeFallenThrough: bool)
    requires pc < n <= insns.Length
    ensures popularity == Popularity(insns[..n], pc)
    ensures canBeFallenThrough <==> CanFallThrough(insns[..n], pc)
  {
    ghost var p := insns[..n];
    popularity, canBeFallenThrough := 0, false;
    for pc2 := 0 to pc
      invariant popularity == PopularityBelow(p, pc, pc2)
      invariant canBeFallenThrough <==> pc2 == pc && CanFallThrough(p, pc)
    {
      var ins2 := insns[pc2];
      assert ins2 == p[pc2];
      if Class(ins2) == RET {
      } else if Class(ins2) == JMP {
        if IsConditionalJump(ins2) {
          if pc2 + ins2.jt + 1 == pc { popularity := popularity + 1; }
          if pc2 + ins2.jf + 1 == pc { popularity := popularity + 1; }
        } else {
          if pc2 + ins2.k + 1 == pc { popularity := popularity + 1; }
        }
      } else if pc2 == pc - 1 {
        popularity := popularity + n;
        canBeFallenThrough := true;
      }
    }
  }

  const RET_REGISTER_A := 0xaaaa_aaaa_aaaa_aaaa

  /** The key of a return in retValueToPC. */
  function ReturnKey(i: Instruction): nat {
    if i.op == RET | SRC_A then RET_REGISTER_A else i.k
  }

  lemma SameKeyIsEqual(i: Instruction, j: Instruction)
    requires OpValid(i) && OpValid(j) && IsReturn(i) && IsReturn(j)
    ensures ReturnKey(i) == ReturnKey(j) <==> Equal(i, j)
  {
    ReturnOpcode(i);
    ReturnOpcode(j);
  }

  ghost predicate IsGroup(p: seq<Instruction>, c: nat, key: nat, pcs: seq<nat>) {
    && Increasing(pcs)
    && forall x :: x in pcs <==> 0 <= x < c && x < |p| && IsReturn(p[x]) && ReturnKey(p[x]) == key
  }

  /** groups is retValueToPC after the first c instructions. */
  ghost predicate Grouped(p: seq<Instruction>, c: nat, groups: map<nat, seq<nat>>) {
    && (forall key | key in groups :: IsGroup(p, c, key, groups[key]))
    && (forall x: nat | x < c && x < |p| && IsReturn(p[x]) :: ReturnKey(p[x]) in groups)
  }

  lemma GroupedStep(p: seq<Instruction>, c: nat, groups: map<nat, seq<nat>>)
    requires c < |p| && Grouped(p, c, groups)
    ensures !IsReturn(p[c]) ==> Grouped(p, c + 1, groups)
    ensures IsReturn(p[c]) ==>
              var key := ReturnKey(p[c]);
              Grouped(p, c + 1, groups[key := (if key in groups then groups[key] else []) + [c]])
  {
    hide IsReturn;
    hide ReturnKey;
    if IsReturn(p[c]) {
      var key := ReturnKey(p[c]);
      var pcs := if key in groups then groups[key] else [];
      assert IsGroup(p, c, key, pcs);
      assert IsGroup(p, c + 1, key, pcs + [c]) by {
        forall k | 0 <= k < |pcs| ensures pcs[k] < c { assert pcs[k] in pcs; }
      }
      forall key' | key' in groups && key' != key
        ensures IsGroup(p, c + 1, key', groups[key'])
      {
        assert IsGroup(p, c, key', groups[key']);
      }
    }
  }

  // ---------------------------------------------------------------------
  // sort.Slice by popularity
  // ---------------------------------------------------------------------

  function Score(scores: seq<nat>, x: nat): nat {
    if x < |scores| then scores[x] else 0
  }

  predicate Less(scores: seq<nat>, x: nat, y: nat) {
    Score(scores, x) < Score(scores, y) || (Score(scores, x) == Score(scores, y) && x < y)
  }

  function InsertByScore(scores: seq<nat>, x: nat, s: seq<nat>): seq<nat> {
    if s == [] || Less(scores, x, s[0]) then [x] + s else [s[0]] + InsertByScore(scores, x, s[1..])
  }

  function SortByScore(scores: seq<nat>, s: seq<nat>): seq<nat> {
    if s == [] then [] else InsertByScore(scores, s[0], SortByScore(scores, s[1..]))
  }

  ghost predicate SortedByScore(scores: seq<nat>, s: seq<nat>) {
    forall i, j | 0 <= i < j < |s| :: Less(scores, s[i], s[j])
  }

  lemma {:induction false} InsertByScoreSorted(scores: seq<nat>, x: nat, s: seq<nat>)
    requires SortedByScore(scores, s) && x !in s
    ensures SortedByScore(scores, InsertByScore(scores, x, s))
    ensures forall y :: y in InsertByScore(scores, x, s) <==> y == x || y in s
  {
    if s == [] || Less(scores, x, s[0]) {
      assert InsertByScore(scores, x, s)[0] == x && InsertByScore(scores, x, s)[1..] == s;
    } else {
      assert s == [s[0]] + s[1..];
      assert s[0] != x;
      InsertByScoreSorted(scores, x, s[1..]);
      var rest := InsertByScore(scores, x, s[1..]);
      forall i | 0 <= i < |rest|
        ensures Less(scores, s[0], rest[i])
      {
        assert rest[i] in rest;
        if rest[i] != x {
          var k :| 0 <= k < |s[1..]| && s[1..][k] == rest[i];
          assert s[k + 1] == rest[i];
        }
      }
    }
  }

  lemma {:induction false} SortByScoreSorted(scores: seq<nat>, s: seq<nat>)
    requires Increasing(s)
    ensures SortedByScore(scores, SortByScore(scores, s))
    ensures forall y :: y in SortByScore(scores, s) <==> y in s
  {
    if s != [] {
      assert s == [s[0]] + s[1..];
      SortByScoreSorted(scores, s[1..]);
      InsertByScoreSorted(scores, s[0], SortByScore(scores, s[1..]));
    }
  }

  // ---------------------------------------------------------------------
  // The pass
  // ---------------------------------------------------------------------

  /** pcs is a group of returns of p, in ascending order of the scores. */
  ghost predicate SortedGroup(p: seq<Instruction>, scores: seq<nat>, pcs: seq<nat>) {
    && SortedByScore(scores, pcs)
    && (forall x | x in pcs :: x < |p| && IsReturn(p[x]))
    && (forall x, y | x in pcs && y in pcs :: Equal(p[x], p[y]))
  }

  /** No pair of the group from position c on, up to position i, could be merged in p. */
  ghost predicate NoMerge(p: seq<Instruction>, pcs: seq<nat>, i: nat, c: nat)
    requires i < |pcs|
  {
    forall j | c <= j < |pcs| && i < j :: !Rewritable(p, pcs[i], pcs[j])
  }

  lemma PopularIsNew(scores: seq<nat>, pcs: seq<nat>, i: nat, j: nat)
    requires SortedByScore(scores, pcs) && i < j < |pcs|
    ensures pcs[j] !in pcs[..i + 1]
  {
  }

  /** The loop over j: try to send the jumps to one return to each more
      popular one, from the most popular down. */
  method MergeReturn(insns: array<Instruction>, n: nat, pcs: seq<nat>, i: nat,
                     ghost p: seq<Instruction>, ghost scores: seq<nat>, ghost orphans: set<nat>)
    returns (changed: bool)
    requires n <= insns.Length && Merging(p, insns[..n], orphans)
    requires SortedGroup(p, scores, pcs) && i < |pcs| && !CanFallThrough(p, pcs[i])
    requires forall j | i < j < |pcs| :: pcs[j] !in orphans
    modifies insns
    ensures Merging(p, insns[..n], if changed then orphans + {pcs[i]} else orphans)
    ensures !changed && orphans == {} ==> NoMerge(p, pcs, i, 0)
    ensures insns[n..] == old(insns[n..])
  {
    hide FlowsInside;
    hide Improves;
    hide Equal;
    hide Rewritable;
    hide IsReturn;
    hide CanFallThrough;
    ghost var q := insns[..n];
    var j := |pcs| - 1;
    while j > i
      invariant i <= j < |pcs|
      invariant insns[..n] == q && insns[n..] == old(insns[n..])
      invariant orphans == {} ==> NoMerge(p, pcs, i, j + 1)
      decreases j
    {
      var popularPC := pcs[j];
      assert pcs[i] in pcs && pcs[j] in pcs;
      SameReturns(p, q, pcs[i]);
      SameReturns(p, q, pcs[j]);
      assert Less(scores, pcs[i], pcs[j]);
      assert insns[pcs[i]] == q[pcs[i]] && insns[pcs[j]] == q[pcs[j]];
      var rewritten := RewriteAllJumpsToReturn(insns, n, pcs[i], popularPC);
      if rewritten {
        assert Rewritable(q, pcs[i], pcs[j]);
        MergeStep(p, q, orphans, pcs[i], pcs[j]);
        return true;
      }
      j := j - 1;
    }
    return false;
  }

  lemma SameReturns(p: seq<Instruction>, q: seq<Instruction>, x: nat)
    requires SameShape(p, q) && x < |p| && IsReturn(p[x])
    ensures q[x] == p[x]
  {
  }

  /** The loop over i: one group of equal returns. */
  method MergeGroup(insns: array<Instruction>, n: nat, pcs: seq<nat>, canBeFallenThrough: array<bool>,
                    ghost p: seq<Instruction>, ghost scores: seq<nat>, ghost orphans: set<nat>)
    returns (changed: bool, ghost orphans': set<nat>)
    requires n <= insns.Length && canBeFallenThrough.Length == |p| == n && Merging(p, insns[..n], orphans)
    requires SortedGroup(p, scores, pcs)
    requires forall x | x in pcs :: x !in orphans && (canBeFallenThrough[x] <==> CanFallThrough(p, x))
    modifies insns
    ensures Merging(p, insns[..n], orphans')
    ensures orphans <= orphans' && (forall x | x in orphans' :: x in orphans || x in pcs)
    ensures changed <==> orphans' != orphans
    ensures orphans' == {} ==> forall i | 0 <= i < |pcs| && !CanFallThrough(p, pcs[i]) :: NoMerge(p, pcs, i, 0)
    ensures insns[n..] == old(insns[n..])
  {
    hide Merging;
    hide CanFallThrough;
    hide NoMerge;
    hide Equal;
    hide IsReturn;
    changed, orphans' := false, orphans;
    for i := 0 to |pcs|
      invariant Merging(p, insns[..n], orphans') && insns[n..] == old(insns[n..])
      invariant orphans <= orphans' && forall x | x in orphans' :: x in orphans || x in pcs[..i]
      invariant changed <==> orphans' != orphans
      invariant orphans' == {} ==> forall k | 0 <= k < i && !CanFallThrough(p, pcs[k]) :: NoMerge(p, pcs, k, 0)
    {
      assert pcs[i] in pcs;
      var unpopularPC := pcs[i];
      if !canBeFallenThrough[unpopularPC] {
        forall j | i < j < |pcs|
          ensures pcs[j] !in orphans'
        {
          PopularIsNew(scores, pcs, i, j);
          assert pcs[j] in pcs;
          assert pcs[..i + 1] == pcs[..i] + [pcs[i]];
        }
        var merged := MergeReturn(insns, n, pcs, i, p, scores, orphans');
        if merged {
          changed := true;
          assert pcs[i] !in pcs[..i] by { PopularityIsStrict(scores, pcs, i); }
          orphans' := orphans' + {pcs[i]};
          assert pcs[i] in orphans' && pcs[i] !in orphans;
        }
      }
      assert pcs[..i + 1] == pcs[..i] + [pcs[i]];
    }
    assert pcs[..|pcs|] == pcs;
  }

  lemma PopularityIsStrict(scores: seq<nat>, pcs: seq<nat>, i: nat)
    requires SortedByScore(scores, pcs) && i < |pcs|
    ensures pcs[i] !in pcs[..i]
  {
  }

  /** No return could be merged into a more popular equal one. */
  ghost predicate ReturnsSettled(p: seq<Instruction>) {
    forall from: nat, to: nat
      | && from < |p| && to < |p|
        && IsReturn(p[from]) && IsReturn(p[to]) && Equal(p[from], p[to])
        && !CanFallThrough(p, from) && LessPopular(p, from, to)
      :: !Rewritable(p, from, to)
  }

  /** The first loop of the pass. */
  method GroupReturns(insns: array<Instruction>, n: nat)
    returns (groups: map<nat, seq<nat>>, popularity: array<nat>, canBeFallenThrough: array<bool>)
    requires n <= insns.Length
    ensures fresh(popularity) && fresh(canBeFallenThrough)
    ensures popularity.Length == canBeFallenThrough.Length == n
    ensures Grouped(insns[..n], n, groups)
    ensures forall x | 0 <= x < n && IsReturn(insns[x]) ::
              popularity[x] == Popularity(insns[..n], x) && (canBeFallenThrough[x] <==> CanFallThrough(insns[..n], x))
  {
    ghost var p := insns[..n];
    hide Popularity;
    hide CanFallThrough;
    hide IsReturn;
    hide ReturnKey;
    groups := map[];
    popularity := new nat[n](_ => 0);
    canBeFallenThrough := new bool[n](_ => false);
    for pc := 0 to n
      invariant Grouped(p, pc, groups)
      invariant forall x | 0 <= x < pc && IsReturn(p[x]) ::
                  popularity[x] == Popularity(p, x) && (canBeFallenThrough[x] <==> CanFallThrough(p, x))
    {
      hide Grouped;
      var ins := insns[pc];
      assert ins == p[pc];
      GroupedStep(p, pc, groups);
      if IsReturn(ins) {
        var retValue := ReturnKey(ins);
        var pop, fall := MeasurePopularity(insns, n, pc);
        groups := groups[retValue := (if retValue in groups then groups[retValue] else []) + [pc]];
        popularity[pc] := pop;
        canBeFallenThrough[pc] := fall;
      }
    }
  }

  method OptimizeJumpsToSmallestSetOfReturns(insns: array<Instruction>, n: nat)
    returns (changed: bool, ghost orphans: set<nat>)
    requires n <= insns.Length && FlowsInside(insns[..n])
    modifies insns
    ensures Merging(old(insns[..n]), insns[..n], orphans)
    ensures changed <==> orphans != {}
    ensures !changed ==> ReturnsSettled(insns[..n])
    ensures insns[n..] == old(insns[n..])
  {
    ghost var p := insns[..n];
    var groups, popularity, canBeFallenThrough := GroupReturns(insns, n);
    ghost var scores := popularity[..];
    MergingStart(p);
    changed, orphans := false, {};
    var keys := groups.Keys;
    ghost var done: set<nat> := {};
    while keys != {}
      invariant Merging(p, insns[..n], orphans) && insns[n..] == old(insns[n..])
      invariant keys !! done && keys + done == groups.Keys
      invariant forall x | x in orphans :: x < n && ReturnKey(p[x]) in done
      invariant changed <==> orphans != {}
      invariant orphans == {} ==> forall key | key in done :: GroupSettled(p, SortByScore(scores, groups[key]))
      invariant popularity[..] == scores
      invariant forall x | 0 <= x < n && IsReturn(p[x]) :: canBeFallenThrough[x] <==> CanFallThrough(p, x)
      decreases keys
    {
      hide FlowsInside;
      hide Merging;
      hide IsReturn;
      hide ReturnKey;
      hide CanFallThrough;
      hide GroupSettled;
      hide Increasing;
      var key :| key in keys;
      assert IsGroup(p, n, key, groups[key]);
      var pcs := SortByScore(popularity[..], groups[key]);
      SortByScoreSorted(scores, groups[key]);
      GroupIsSorted(p, scores, key, groups[key]);
      ghost var before := orphans;
      var merged;
      merged, orphans := MergeGroup(insns, n, pcs, canBeFallenThrough, p, scores, orphans);
      changed := changed || merged;
      if orphans == {} { GroupSettledIntro(p, pcs); }
      keys, done := keys - {key}, done + {key};
    }
    if !changed {
      AllGroupsSettled(p, groups, scores);
    }
  }

  ghost predicate GroupSettled(p: seq<Instruction>, pcs: seq<nat>) {
    forall i | 0 <= i < |pcs| && !CanFallThrough(p, pcs[i]) :: NoMerge(p, pcs, i, 0)
  }

  lemma GroupSettledIntro(p: seq<Instruction>, pcs: seq<nat>)
    requires forall i | 0 <= i < |pcs| && !CanFallThrough(p, pcs[i]) :: NoMerge(p, pcs, i, 0)
    ensures GroupSettled(p, pcs)
  {
  }

  lemma GroupIsSorted(p: seq<Instruction>, scores: seq<nat>, key: nat, group: seq<nat>)
    requires FlowsInside(p) && IsGroup(p, |p|, key, group)
    ensures SortedGroup(p, scores, SortByScore(scores, group))
  {
    hide OpValid;
    hide TargetsWithin;
    hide Equal;
    hide IsReturn;
    hide ReturnKey;
    var pcs := SortByScore(scores, group);
    SortByScoreSorted(scores, group);
    forall x, y | x in pcs && y in pcs
      ensures Equal(p[x], p[y])
    {
      assert x in group && y in group;
      SameKeyIsEqual(p[x], p[y]);
    }
  }

  lemma AllGroupsSettled(p: seq<Instruction>, groups: map<nat, seq<nat>>, scores: seq<nat>)
    requires FlowsInside(p) && Grouped(p, |p|, groups) && |scores| == |p|
    requires forall x | 0 <= x < |p| && IsReturn(p[x]) :: scores[x] == Popularity(p, x)
    requires forall key | key in groups :: GroupSettled(p, SortByScore(scores, groups[key]))
    ensures ReturnsSettled(p)
  {
    hide OpValid;
    hide TargetsWithin;
    hide Equal;
    hide IsReturn;
    hide ReturnKey;
    hide CanFallThrough;
    hide Rewritable;
    hide Popularity;
    forall from: nat, to: nat | from < |p| && to < |p| && IsReturn(p[from]) && IsReturn(p[to]) && Equal(p[from], p[to])
                                && !CanFallThrough(p, from) && LessPopular(p, from, to)
      ensures !Rewritable(p, from, to)
    {
      SameKeyIsEqual(p[from], p[to]);
      var group := groups[ReturnKey(p[from])];
      var pcs := SortByScore(scores, group);
      SortByScoreSorted(scores, group);
      assert from in group && to in group;
      assert from in pcs && to in pcs;
      var i :| 0 <= i < |pcs| && pcs[i] == from;
      var j :| 0 <= j < |pcs| && pcs[j] == to;
      assert Less(scores, from, to);
      assert i < j;
      assert NoMerge(p, pcs, i, 0);
    }
  }
}
