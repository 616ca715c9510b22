/** The four passes of optimizer.go that rewrite jumps where they stand:
    optimizeConditionalJumps, optimizeSameTargetConditionalJumps,
    optimizeUnconditionalJumps and optimizeJumpsToReturn.

    A slice is an array and a length. Each pass scans forward and looks only
    at later instructions, so what it computes in place is a function of the
    original instructions. */
module JumpPasses {
  import opened Bpf
  import opened Validator
  import opened Simulation
  import opened Removal
  import opened Progress

  const MAX_CONDITIONAL_JUMP_OFFSET := 0xff
  const MAX_UNCONDITIONAL_JUMP_OFFSET := 0xffff

  /** What is owed by a pass that rewrites p into p' in place. */
  ghost predicate SoundRewrite(p: seq<Instruction>, p': seq<Instruction>) {
    && FlowsInside(p')
    && Improves(p, p')
    && NoNewPlain(p, p')
    && (p' != p ==> MakesProgress(p, p'))
  }

  // ---------------------------------------------------------------------
  // optimizeConditionalJumps
  // ---------------------------------------------------------------------

  /** The offset of a conditional jump at pc that would go `off` instructions
      past the next one, after following a direct jump there if the total
      still fits in a byte. */
  function ThreadedOffset(p: seq<Instruction>, pc: nat, off: u8): u8
    requires pc + 1 + off < |p|
  {
    var target := p[pc + 1 + off];
    if IsUnconditionalJump(target) && off + 1 + target.k <= MAX_CONDITIONAL_JUMP_OFFSET
    then off + 1 + target.k
    else off
  }

  predicate OffsetsInside(p: seq<Instruction>, pc: nat)
    requires pc < |p|
  {
    && (IsConditionalJump(p[pc]) ==> pc + 1 + p[pc].jt < |p| && pc + 1 + p[pc].jf < |p|)
    && (IsUnconditionalJump(p[pc]) ==> pc + 1 + p[pc].k < |p|)
  }

  lemma OffsetsAreInside(p: seq<Instruction>, pc: nat)
    requires FlowsInside(p) && pc < |p|
    ensures OffsetsInside(p, pc)
  {
    hide OpValid;
    assert TargetsWithin(p[pc], pc, |p|);
    if IsConditionalJump(p[pc]) {
      assert pc + 1 + p[pc].jt in Successors(p[pc], pc);
      assert pc + 1 + p[pc].jf in Successors(p[pc], pc);
    } else if IsUnconditionalJump(p[pc]) {
      assert pc + 1 + p[pc].k in Successors(p[pc], pc);
    }
  }

  function ThreadedConditional(p: seq<Instruction>, pc: nat): Instruction
    requires pc < |p| && OffsetsInside(p, pc)
  {
    var i := p[pc];
    if IsConditionalJump(i)
    then i.(jt := ThreadedOffset(p, pc, i.jt), jf := ThreadedOffset(p, pc, i.jf))
    else i
  }

  ghost predicate IsThreadedConditionals(p: seq<Instruction>, p': seq<Instruction>) {
    && |p'| == |p|
    && forall pc | 0 <= pc < |p| :: OffsetsInside(p, pc) && p'[pc] == ThreadedConditional(p, pc)
  }

  /** i' may replace p[pc] as a threaded jump: the same opcode, edges that
      follow p's edges, and targets closer to the end unless nothing changed. */
  ghost predicate ThreadedAt(p: seq<Instruction>, i': Instruction, pc: nat)
    requires pc < |p|
  {
    && Shortcut(p, i', pc)
    && (forall s' | s' in Successors(i', pc) :: FollowsEdge(p, pc, s'))
    && i'.op == p[pc].op
    && (i' != p[pc] ==> IsJump(i') && TargetDistance(i', pc, |p|) < TargetDistance(p[pc], pc, |p|))
  }

  lemma ThreadingIsSound(p: seq<Instruction>, p': seq<Instruction>)
    requires FlowsInside(p) && |p'| == |p|
    requires forall pc | 0 <= pc < |p| :: ThreadedAt(p, p'[pc], pc)
    ensures SoundRewrite(p, p')
  {
    hide FlowsInside;
    hide Shortcut;
    hide Successors;
    hide FollowsEdge;
    hide TargetDistance;
    hide Improves;
    RetargetedImproves(p, p');
    assert NoNewPlain(p, p');
    if p' != p {
      ThreadsReachableCount(p, p');
      assert ConditionalFlags(p') == ConditionalFlags(p);
      assert JumpFlags(p') == JumpFlags(p);
      var k :| 0 <= k < |p| && p'[k] != p[k];
      SumStrictlyMonotone(TargetDistances(p'), TargetDistances(p), k);
    }
  }

  lemma ThreadedConditionalAt(p: seq<Instruction>, pc: nat)
    requires FlowsInside(p) && pc < |p| && OffsetsInside(p, pc)
    ensures ThreadedAt(p, ThreadedConditional(p, pc), pc)
  {
    hide OpValid;
    var i := p[pc];
    if IsConditionalJump(i) {
      OffsetsAreInside(p, pc + 1 + i.jt);
      OffsetsAreInside(p, pc + 1 + i.jf);
    }
  }

  lemma ThreadedConditionalsSound(p: seq<Instruction>, p': seq<Instruction>)
    requires FlowsInside(p) && IsThreadedConditionals(p, p')
    ensures SoundRewrite(p, p')
  {
    hide FlowsInside;
    hide ThreadedAt;
    hide SoundRewrite;
    hide ThreadedConditional;
    hide OffsetsInside;
    forall pc | 0 <= pc < |p|
      ensures ThreadedAt(p, p'[pc], pc)
    {
      ThreadedConditionalAt(p, pc);
    }
    ThreadingIsSound(p, p');
  }

  /** One of the two "take care of" blocks of the pass. */
  method ThreadTarget(insns: array<Instruction>, n: nat, pc: nat, off: u8) returns (off': u8, changed: bool)
    requires n <= insns.Length && pc + 1 + off < n
    ensures off' == ThreadedOffset(insns[..n], pc, off)
    ensures changed <==> off' != off
  {
    off', changed := off, false;
    var target := insns[pc + off + 1];
    if IsUnconditionalJump(target) && off + 1 + target.k <= MAX_CONDITIONAL_JUMP_OFFSET {
      off', changed := off + 1 + target.k, true;
    }
  }

  lemma ThreadedOffsetLocal(p: seq<Instruction>, q: seq<Instruction>, pc: nat, off: u8)
    requires |p| == |q| && pc + 1 + off < |p| && p[pc + 1 + off] == q[pc + 1 + off]
    ensures ThreadedOffset(p, pc, off) == ThreadedOffset(q, pc, off)
  {
  }

  method OptimizeConditionalJumps(insns: array<Instruction>, n: nat) returns (changed: bool)
    requires n <= insns.Length && FlowsInside(insns[..n])
    modifies insns
    ensures IsThreadedConditionals(old(insns[..n]), insns[..n])
    ensures changed <==> insns[..n] != old(insns[..n])
    ensures insns[n..] == old(insns[n..])
  {
    ghost var p := insns[..n];
    forall pc | 0 <= pc < n ensures OffsetsInside(p, pc) { OffsetsAreInside(p, pc); }
    hide FlowsInside;
    hide OffsetsInside;
    hide ThreadedConditional;
    changed := false;
    for pc := 0 to n
      invariant forall j | 0 <= j < pc :: insns[j] == ThreadedConditional(p, j)
      invariant forall j | pc <= j < insns.Length :: insns[j] == old(insns[j])
      invariant changed <==> exists j | 0 <= j < pc :: insns[j] != p[j]
    {
      var c := ThreadOne(insns, n, pc, p);
      changed := changed || c;
    }
  }

  /** Both targets of the instruction at pc, if it is a conditional jump. */
  method ThreadOne(insns: array<Instruction>, n: nat, pc: nat, ghost p: seq<Instruction>) returns (changed: bool)
    requires pc < n <= insns.Length && |p| == n && OffsetsInside(p, pc)
    requires forall j | pc <= j < n :: insns[j] == p[j]
    modifies insns
    ensures insns[pc] == ThreadedConditional(p, pc) && (changed <==> insns[pc] != p[pc])
    ensures forall j | 0 <= j < insns.Length && j != pc :: insns[j] == old(insns[j])
  {
    hide ThreadedOffset;
    changed := false;
    var ins := insns[pc];
    if IsConditionalJump(ins) {
      var jt, changedTrue := ThreadTarget(insns, n, pc, ins.jt);
      var jf, changedFalse := ThreadTarget(insns, n, pc, ins.jf);
      ThreadedOffsetLocal(insns[..n], p, pc, ins.jt);
      ThreadedOffsetLocal(insns[..n], p, pc, ins.jf);
      insns[pc] := ins.(jt := jt, jf := jf);
      changed := changedTrue || changedFalse;
    }
  }

  // ---------------------------------------------------------------------
  // optimizeSameTargetConditionalJumps
  // ---------------------------------------------------------------------

  function MergedTarget(i: Instruction): Instruction {
    if IsConditionalJump(i) && i.jt == i.jf then Jump(JMP | JA, i.jt, 0, 0) else i
  }

  ghost predicate IsMergedTargets(p: seq<Instruction>, p': seq<Instruction>) {
    && |p'| == |p|
    && forall pc | 0 <= pc < |p| :: p'[pc] == MergedTarget(p[pc])
  }

  lemma MergedTargetsSound(p: seq<Instruction>, p': seq<Instruction>)
    requires FlowsInside(p) && IsMergedTargets(p, p')
    ensures SoundRewrite(p, p')
  {
    hide FlowsInside;
    hide Improves;
    hide Equal;
    assert Retargeted(p, p');
    RetargetedImproves(p, p');
    assert NoNewPlain(p, p');
    if p' != p {
      assert Threads(p, p');
      ThreadsReachableCount(p, p');
      var k :| 0 <= k < |p| && p'[k] != p[k];
      SumStrictlyMonotone(ConditionalFlags(p'), ConditionalFlags(p), k);
    }
  }

  method OptimizeSameTargetConditionalJumps(insns: array<Instruction>, n: nat) returns (changed: bool)
    requires n <= insns.Length && FlowsInside(insns[..n])
    modifies insns
    ensures IsMergedTargets(old(insns[..n]), insns[..n])
    ensures forall pc | 0 <= pc < n && IsConditionalJump(insns[pc]) :: insns[pc].jt != insns[pc].jf
    ensures changed <==> insns[..n] != old(insns[..n])
    ensures insns[n..] == old(insns[n..])
  {
    ghost var p := insns[..n];
    hide FlowsInside;
    changed := false;
    for pc := 0 to n
      invariant forall j | 0 <= j < pc :: insns[j] == MergedTarget(p[j])
      invariant forall j | pc <= j < insns.Length :: insns[j] == old(insns[j])
      invariant changed <==> insns[..pc] != p[..pc]
    {
      var ins := insns[pc];
      assert ins == p[pc];
      ghost var before := insns[..pc];
      if IsConditionalJump(ins) && ins.jt == ins.jf {
        insns[pc] := Jump(JMP | JA, ins.jt, 0, 0);
        changed := true;
      }
      assert insns[..pc + 1] == before + [MergedTarget(p[pc])];
      assert p[..pc + 1] == p[..pc] + [p[pc]];
    }
    assert p[..n] == p;
  }

  // ---------------------------------------------------------------------
  // optimizeUnconditionalJumps
  // ---------------------------------------------------------------------

  function ThreadedDirect(p: seq<Instruction>, pc: nat): Instruction
    requires pc < |p| && OffsetsInside(p, pc)
  {
    var i := p[pc];
    if IsUnconditionalJump(i) && IsUnconditionalJump(p[pc + 1 + i.k])
       && i.k + 1 + p[pc + 1 + i.k].k <= MAX_UNCONDITIONAL_JUMP_OFFSET
    then i.(k := i.k + 1 + p[pc + 1 + i.k].k)
    else i
  }

  ghost predicate IsThreadedDirects(p: seq<Instruction>, p': seq<Instruction>) {
    && |p'| == |p|
    && forall pc | 0 <= pc < |p| :: OffsetsInside(p, pc) && p'[pc] == ThreadedDirect(p, pc)
  }

  lemma ThreadedDirectAt(p: seq<Instruction>, pc: nat)
    requires FlowsInside(p) && pc < |p| && OffsetsInside(p, pc)
    ensures ThreadedAt(p, ThreadedDirect(p, pc), pc)
  {
    hide OpValid;
    var i := p[pc];
    if IsUnconditionalJump(i) {
      OffsetsAreInside(p, pc + 1 + i.k);
    }
  }

  lemma ThreadedDirectsSound(p: seq<Instruction>, p': seq<Instruction>)
    requires FlowsInside(p) && IsThreadedDirects(p, p')
    ensures SoundRewrite(p, p')
  {
    hide FlowsInside;
    hide ThreadedAt;
    hide SoundRewrite;
    hide ThreadedDirect;
    hide OffsetsInside;
    forall pc | 0 <= pc < |p|
      ensures ThreadedAt(p, p'[pc], pc)
    {
      ThreadedDirectAt(p, pc);
    }
    ThreadingIsSound(p, p');
  }

  method OptimizeUnconditionalJumps(insns: array<Instruction>, n: nat) returns (changed: bool)
    requires n <= insns.Length && FlowsInside(insns[..n])
    modifies insns
    ensures IsThreadedDirects(old(insns[..n]), insns[..n])
    ensures changed <==> insns[..n] != old(insns[..n])
    ensures insns[n..] == old(insns[n..])
  {
    ghost var p := insns[..n];
    forall pc | 0 <= pc < n ensures OffsetsInside(p, pc) { OffsetsAreInside(p, pc); }
    hide FlowsInside;
    changed := false;
    for pc := 0 to n
      invariant forall j | 0 <= j < pc :: insns[j] == ThreadedDirect(p, j)
      invariant forall j | pc <= j < insns.Length :: insns[j] == old(insns[j])
      invariant changed <==> insns[..pc] != p[..pc]
    {
      var ins := insns[pc];
      assert ins == p[pc] && OffsetsInside(p, pc);
      ghost var before := insns[..pc];
      if IsUnconditionalJump(ins) {
        var jumpIns := insns[pc + ins.k + 1];
        assert jumpIns == p[pc + 1 + ins.k];
        if IsUnconditionalJump(jumpIns) && ins.k + 1 + jumpIns.k <= MAX_UNCONDITIONAL_JUMP_OFFSET {
          insns[pc] := ins.(k := ins.k + 1 + jumpIns.k);
          changed := true;
        }
      }
      assert insns[..pc + 1] == before + [ThreadedDirect(p, pc)];
      assert p[..pc + 1] == p[..pc] + [p[pc]];
    }
    assert p[..n] == p;
  }

  // ---------------------------------------------------------------------
  // optimizeJumpsToReturn
  // ---------------------------------------------------------------------

  function CopiedReturn(p: seq<Instruction>, pc: nat): Instruction
    requires pc < |p| && OffsetsInside(p, pc)
  {
    var i := p[pc];
    if IsUnconditionalJump(i) && IsReturn(p[pc + 1 + i.k]) then p[pc + 1 + i.k] else i
  }

  ghost predicate IsCopiedReturns(p: seq<Instruction>, p': seq<Instruction>) {
    && |p'| == |p|
    && forall pc | 0 <= pc < |p| :: OffsetsInside(p, pc) && p'[pc] == CopiedReturn(p, pc)
  }

  lemma CopiedReturnsSound(p: seq<Instruction>, p': seq<Instruction>)
    requires FlowsInside(p) && IsCopiedReturns(p, p')
    ensures SoundRewrite(p, p')
  {
    hide FlowsInside;
    hide Improves;
    hide Equal;
    assert Retargeted(p, p') by {
      assert forall pc | 0 <= pc < |p| :: Shortcut(p, CopiedReturn(p, pc), pc);
    }
    RetargetedImproves(p, p');
    assert NoNewPlain(p, p') by {
      assert forall pc | 0 <= pc < |p| :: Plain(CopiedReturn(p, pc)) ==> CopiedReturn(p, pc) == p[pc];
    }
    if p' != p {
      assert Threads(p, p') by {
        assert forall pc | 0 <= pc < |p| :: Successors(CopiedReturn(p, pc), pc) <= Successors(p[pc], pc);
      }
      ThreadsReachableCount(p, p');
      assert ConditionalFlags(p') == ConditionalFlags(p);
      var k :| 0 <= k < |p| && p'[k] != p[k];
      assert forall pc | 0 <= pc < |p| :: JumpFlags(p')[pc] <= JumpFlags(p)[pc];
      SumStrictlyMonotone(JumpFlags(p'), JumpFlags(p), k);
    }
  }

  method OptimizeJumpsToReturn(insns: array<Instruction>, n: nat) returns (changed: bool)
    requires n <= insns.Length && FlowsInside(insns[..n])
    modifies insns
    ensures IsCopiedReturns(old(insns[..n]), insns[..n])
    ensures changed <==> insns[..n] != old(insns[..n])
    ensures insns[n..] == old(insns[n..])
  {
    ghost var p := insns[..n];
    forall pc | 0 <= pc < n ensures OffsetsInside(p, pc) { OffsetsAreInside(p, pc); }
    hide FlowsInside;
    changed := false;
    for pc := 0 to n
      invariant forall j | 0 <= j < pc :: insns[j] == CopiedReturn(p, j)
      invariant forall j | pc <= j < insns.Length :: insns[j] == old(insns[j])
      invariant changed <==> insns[..pc] != p[..pc]
    {
      var ins := insns[pc];
      assert ins == p[pc] && OffsetsInside(p, pc);
      ghost var before := insns[..pc];
      if IsUnconditionalJump(ins) {
        var targetIns := insns[pc + ins.k + 1];
        assert targetIns == p[pc + 1 + ins.k];
        if IsReturn(targetIns) {
          insns[pc] := targetIns;
          changed := true;
        }
      }
      assert insns[..pc + 1] == before + [CopiedReturn(p, pc)];
      assert p[..pc + 1] == p[..pc] + [p[pc]];
    }
    assert p[..n] == p;
  }
}
