/** Optimize (optimizer.go): the eight passes run to a fixpoint; and Compile
    (interpreter.go), which validates and then optimizes. */
module Optimizer {
  import opened Options
  import opened Bpf
  import opened Interpreter
  import opened Validator
  import opened Simulation
  import opened Removal
  import opened RedundantLoads
  import opened Progress
  import opened JumpPasses
  import opened RemovalPasses
  import opened ReturnPass
  import opened OptimizedForm

  datatype Pass =
    | ConditionalJumps
    | SameTargetConditionalJumps
    | UnconditionalJumps
    | JumpsToReturn
    | ZeroInstructionJumps
    | DeadCode
    | RedundantLoadInstructions
    | SmallestSetOfReturns

  /** The order in which Optimize lists its passes. */
  const PASSES: seq<Pass> := [
    ConditionalJumps, SameTargetConditionalJumps, UnconditionalJumps, JumpsToReturn,
    ZeroInstructionJumps, DeadCode, RedundantLoadInstructions, SmallestSetOfReturns
  ]

  /** The pass finds nothing to do in p. */
  ghost predicate Settled(pass: Pass, p: seq<Instruction>) {
    match pass
    case ConditionalJumps => IsThreadedConditionals(p, p)
    case SameTargetConditionalJumps => IsMergedTargets(p, p)
    case UnconditionalJumps => IsThreadedDirects(p, p)
    case JumpsToReturn => IsCopiedReturns(p, p)
    case ZeroInstructionJumps => forall pc | 0 <= pc < |p| :: !IsZeroJump(p[pc])
    case DeadCode => forall pc | 0 <= pc < |p| :: Reachable(p, pc)
    case RedundantLoadInstructions => forall pc | 0 <= pc < |p| :: !RedundantLoad(p, pc)
    case SmallestSetOfReturns => ReturnsSettled(p)
  }

  /** What every pass owes: a well-formed program with no new instructions
      but jumps and returns, equivalent and no slower provided no load is
      disturbed; strictly smaller in the measure if the pass reports a
      change, and otherwise untouched and settled. */
  ghost predicate PassContract(pass: Pass, p: seq<Instruction>, p': seq<Instruction>, changed: bool) {
    && FlowsInside(p')
    && NoNewPlain(p, p')
    && (LoadsUndisturbed(p) ==> Improves(p, p'))
    && (changed ==> MakesProgress(p, p'))
    && (!changed ==> p' == p && Settled(pass, p))
  }

  lemma RewriteContract(pass: Pass, p: seq<Instruction>, p': seq<Instruction>, changed: bool)
    requires SoundRewrite(p, p')
    requires changed <==> p' != p
    requires p' == p ==> Settled(pass, p)
    ensures PassContract(pass, p, p', changed)
  {
    hide FlowsInside;
    hide Improves;
    hide MakesProgress;
    hide LoadsUndisturbed;
    hide Settled;
  }

  lemma RemovalContract(pass: Pass, p: seq<Instruction>, removed: seq<nat>, changed: bool)
    requires Increasing(removed) && Below(removed, |p|)
    requires FlowsInside(RemoveAll(p, removed)) && NoNewPlain(p, RemoveAll(p, removed))
    requires LoadsUndisturbed(p) ==> Improves(p, RemoveAll(p, removed))
    requires changed <==> removed != []
    requires removed == [] ==> Settled(pass, p)
    ensures PassContract(pass, p, RemoveAll(p, removed), changed)
  {
    hide FlowsInside;
    hide Improves;
    hide LoadsUndisturbed;
    hide Settled;
  }

  lemma MergeContract(p: seq<Instruction>, p': seq<Instruction>, orphans: set<nat>, changed: bool)
    requires Merging(p, p', orphans) && (changed <==> orphans != {})
    requires forall pc | 0 <= pc < |p| :: Reachable(p, pc)
    requires !changed ==> ReturnsSettled(p')
    ensures PassContract(SmallestSetOfReturns, p, p', changed)
  {
    hide FlowsInside;
    hide Improves;
    hide LoadsUndisturbed;
    hide ReturnsSettled;
    hide Reachable;
    hide MakesProgress;
    MergingNoNewPlain(p, p');
    if changed {
      MergingProgress(p, p', orphans);
    }
  }

  /** One call of an optimizerFunc. The last pass relies on dead-code removal
      having just reported no change. */
  method RunPass(pass: Pass, insns: array<Instruction>, n: nat) returns (n': nat, changed: bool)
    requires n <= insns.Length && FlowsInside(insns[..n])
    requires pass == SmallestSetOfReturns ==> Settled(DeadCode, insns[..n])
    modifies insns
    ensures n' <= n && PassContract(pass, old(insns[..n]), insns[..n'], changed)
  {
    hide FlowsInside;
    hide Improves;
    hide MakesProgress;
    hide LoadsUndisturbed;
    hide PassContract;
    hide SoundRewrite;
    hide NoNewPlain;
    hide Merging;
    hide RemoveAll;
    ghost var p := insns[..n];
    n' := n;
    match pass {
      case ConditionalJumps =>
        changed := OptimizeConditionalJumps(insns, n);
        ThreadedConditionalsSound(p, insns[..n]);
        RewriteContract(pass, p, insns[..n], changed);
      case SameTargetConditionalJumps =>
        changed := OptimizeSameTargetConditionalJumps(insns, n);
        MergedTargetsSound(p, insns[..n]);
        RewriteContract(pass, p, insns[..n], changed);
      case UnconditionalJumps =>
        changed := OptimizeUnconditionalJumps(insns, n);
        ThreadedDirectsSound(p, insns[..n]);
        RewriteContract(pass, p, insns[..n], changed);
      case JumpsToReturn =>
        changed := OptimizeJumpsToReturn(insns, n);
        CopiedReturnsSound(p, insns[..n]);
        RewriteContract(pass, p, insns[..n], changed);
      case ZeroInstructionJumps =>
        ghost var removed;
        n', changed, removed := RemoveZeroInstructionJumps(insns, n);
        forall i | 0 <= i < |removed| ensures IsZeroJump(p[removed[i]]) { assert removed[i] in removed; }
        RemoveAllZeroJumps(p, removed);
        RemovalContract(pass, p, removed, changed);
      case DeadCode =>
        ghost var removed;
        n', changed, removed := RemoveDeadCode(insns, n);
        DeadCodeSound(p, removed);
        RemovalContract(pass, p, removed, changed);
      case RedundantLoadInstructions =>
        ghost var removed;
        n', changed, removed := RemoveRedundantLoads(insns, n);
        forall i | 0 <= i < |removed| ensures RedundantLoad(p, removed[i]) { assert removed[i] in removed; }
        RemoveAllLoads(p, removed);
        RemovalContract(pass, p, removed, changed);
      case SmallestSetOfReturns =>
        ghost var orphans;
        changed, orphans := OptimizeJumpsToSmallestSetOfReturns(insns, n);
        MergeContract(p, insns[..n], orphans, changed);
    }
  }

  // ---------------------------------------------------------------------
  // The fixpoint loop
  // ---------------------------------------------------------------------

  /** What Optimize has achieved so far. */
  ghost predicate OptimizedFrom(p: seq<Instruction>, p': seq<Instruction>) {
    && FlowsInside(p')
    && NoNewPlain(p, p')
    && (LoadsUndisturbed(p) ==> Improves(p, p'))
  }

  lemma OptimizedStart(p: seq<Instruction>)
    requires FlowsInside(p)
    ensures OptimizedFrom(p, p)
  {
    hide FlowsInside;
    ImprovesReflexive(p);
  }

  lemma OptimizedStep(p: seq<Instruction>, q: seq<Instruction>, q': seq<Instruction>, pass: Pass, changed: bool)
    requires OptimizedFrom(p, q) && PassContract(pass, q, q', changed)
    ensures OptimizedFrom(p, q')
  {
    hide FlowsInside;
    hide Improves;
    hide NoNewPlain;
    hide LoadsUndisturbed;
    hide MakesProgress;
    hide Settled;
    NoNewPlainTransitive(p, q, q');
    if LoadsUndisturbed(p) {
      LoadsUndisturbedMonotone(p, q);
      ImprovesTransitive(p, q, q');
    }
  }

  /** One sweep over the passes, up to the first that reports a change. */
  method Sweep(insns: array<Instruction>, n: nat, ghost p: seq<Instruction>) returns (n': nat, changed: bool)
    requires n <= insns.Length && OptimizedFrom(p, insns[..n])
    modifies insns
    ensures n' <= n && OptimizedFrom(p, insns[..n'])
    ensures changed ==> MakesProgress(old(insns[..n]), insns[..n'])
    ensures !changed ==> insns[..n'] == old(insns[..n]) && forall pass | pass in PASSES :: Settled(pass, insns[..n'])
  {
    hide Improves;
    hide FlowsInside;
    hide NoNewPlain;
    hide LoadsUndisturbed;
    hide MakesProgress;
    hide Settled;
    ghost var q := insns[..n];
    n', changed := n, false;
    for k := 0 to |PASSES|
      invariant n' == n && !changed && insns[..n] == q
      invariant forall j | 0 <= j < k :: Settled(PASSES[j], q)
    {
      assert PASSES[k] == SmallestSetOfReturns ==> k == 7 && PASSES[5] == DeadCode;
      n', changed := RunPass(PASSES[k], insns, n);
      OptimizedStep(p, q, insns[..n'], PASSES[k], changed);
      if changed {
        return;
      }
    }
  }

  lemma AllSettledIsOptimized(p: seq<Instruction>)
    requires FlowsInside(p) && forall pass | pass in PASSES :: Settled(pass, p)
    ensures Optimized(p)
  {
    forall k | 0 <= k < |PASSES|
      ensures Settled(PASSES[k], p)
    {
      assert PASSES[k] in PASSES;
    }
    assert Settled(PASSES[0], p) && Settled(PASSES[1], p) && Settled(PASSES[2], p) && Settled(PASSES[3], p);
    assert Settled(PASSES[4], p) && Settled(PASSES[5], p) && Settled(PASSES[6], p) && Settled(PASSES[7], p);
    hide FlowsInside;
    hide Reachable;
    hide ReturnsSettled;
    hide RedundantLoad;
    hide Optimized;
    SettledIsOptimized(p);
  }

  /** Optimize. Whatever order the returns are merged in, it terminates on
      every well-formed program, with a well-formed program no pass can
      change, which is therefore in optimized form; and if no load of the program is disturbed, the result behaves
      as the original on every input in no more steps. */
  method Optimize(insns: array<Instruction>, n: nat) returns (n': nat)
    requires n <= insns.Length && WellFormed(insns[..n])
    modifies insns
    ensures n' <= n && WellFormed(insns[..n'])
    ensures forall pass | pass in PASSES :: Settled(pass, insns[..n'])
    ensures Optimized(insns[..n'])
    ensures LoadsUndisturbed(old(insns[..n])) ==> Improves(old(insns[..n]), insns[..n'])
  {
    hide Improves;
    hide WellFormed;
    hide NoNewPlain;
    hide LoadsUndisturbed;
    hide Settled;
    hide FlowsInside;
    hide Optimized;
    ghost var p := insns[..n];
    WellFormedIffFlowsInside(p);
    OptimizedStart(p);
    n' := n;
    var changed := true;
    while changed
      invariant n' <= n && OptimizedFrom(p, insns[..n'])
      invariant !changed ==> forall pass | pass in PASSES :: Settled(pass, insns[..n'])
      decreases |insns[..n']|, ReachableCount(insns[..n']), ConditionalCount(insns[..n']), JumpCount(insns[..n']),
                TotalDistance(insns[..n']), changed
    {
      n', changed := Sweep(insns, n', p);
    }
    WellFormedIffFlowsInside(insns[..n']);
    AllSettledIsOptimized(insns[..n']);
  }

  // ---------------------------------------------------------------------
  // Compile
  // ---------------------------------------------------------------------

  datatype CompileResult = Compiled(length: nat) | Rejected(code: ErrorCode, pc: nat)

  /** The machine can execute the instruction at pc, and if it is a jump it stays
      inside the program. */
  ghost predicate Passes(p: seq<Instruction>, pc: nat)
    requires pc < |p|
  {
    Executable(p[pc]) && (IsJump(p[pc]) ==> TargetsWithin(p[pc], pc, |p|))
  }

  /** The first error Compile would report, in the order it looks; the code says
      what is wrong with the instruction. */
  ghost predicate RejectedWith(p: seq<Instruction>, code: ErrorCode, pc: nat) {
    if |p| == 0 || |p| > MAX_INSTRUCTIONS then code == InvalidInstructionCount && pc == |p|
    else if !EndsInReturn(p) then code == InvalidEndOfProgram && pc == |p| - 1
    else
      && pc < |p|
      && Explains(code, p[pc], pc, |p|)
      && forall q | 0 <= q < pc :: Passes(p, q)
  }

  /** The machine can execute every instruction and never leaves the program. */
  ghost predicate Runnable(p: seq<Instruction>) {
    && 0 < |p| <= 4096
    && forall pc | 0 <= pc < |p| :: Executable(p[pc]) && TargetsWithin(p[pc], pc, |p|)
  }

  ghost predicate Accepted(p: seq<Instruction>) {
    |p| <= MAX_INSTRUCTIONS && WellFormed(p)
  }

  /** What Compile accepts is what can be run. */
  lemma AcceptedIffRunnable(p: seq<Instruction>)
    ensures Accepted(p) <==> Runnable(p)
  {
    WellFormedIffFlowsInside(p);
    hide WellFormed;
    hide OpValid;
    hide Executable;
    hide TargetsWithin;
    forall pc | 0 <= pc < |p|
      ensures OpValid(p[pc]) <==> Executable(p[pc])
    {
      OpValidIffExecutable(p[pc]);
    }
  }

  method Compile(insns: array<Instruction>, n: nat, optimize: bool) returns (r: CompileResult)
    requires n <= insns.Length
    modifies insns
    ensures r.Compiled? <==> Accepted(old(insns[..n]))
    ensures r.Compiled? <==> Runnable(old(insns[..n]))
    ensures r.Rejected? ==> RejectedWith(old(insns[..n]), r.code, r.pc) && insns[..] == old(insns[..])
    ensures r.Compiled? ==> r.length <= n && Accepted(insns[..r.length])
    ensures r.Compiled? && !optimize ==> r.length == n && insns[..] == old(insns[..])
    ensures r.Compiled? && optimize ==> forall pass | pass in PASSES :: Settled(pass, insns[..r.length])
    ensures r.Compiled? && optimize ==> Optimized(insns[..r.length])
    ensures r.Compiled? && LoadsUndisturbed(old(insns[..n])) ==> Improves(old(insns[..n]), insns[..r.length])
  {
    hide Improves;
    hide LoadsUndisturbed;
    hide Settled;
    hide Optimized;
    hide CheckInstruction;
    hide Executable;
    hide Explains;
    hide TargetsWithin;
    ghost var p := insns[..n];
    AcceptedIffRunnable(p);
    hide Runnable;
    if n == 0 || n > MAX_INSTRUCTIONS {
      return Rejected(InvalidInstructionCount, n);
    }
    var last := insns[n - 1];
    if last.op != RET | SRC_K && last.op != RET | SRC_A {
      return Rejected(InvalidEndOfProgram, n - 1);
    }
    for pc := 0 to n
      invariant insns[..] == old(insns[..])
      invariant forall q | 0 <= q < pc :: CheckInstruction(p[q], q, n) == None && Passes(p, q)
    {
      assert insns[pc] == p[pc];
      CheckMeaning(p[pc], pc, n);
      match CheckInstruction(insns[pc], pc, n) {
        case Some(code) => return Rejected(code, pc);
        case None =>
      }
    }
    ImprovesReflexive(p);
    var length := n;
    if optimize {
      length := Optimize(insns, n);
    }
    return Compiled(length);
  }
}
