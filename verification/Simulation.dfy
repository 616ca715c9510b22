/** Programs as control-flow graphs: reachability, what it means for one
    program to improve another, and the two simulation arguments every
    optimizer pass reduces to: retargeting jumps in place, and removing one
    instruction. */
module Simulation {
  import opened Bpf
  import opened Interpreter
  import opened Validator

  // ---------------------------------------------------------------------
  // Equivalence
  // ---------------------------------------------------------------------

  /** The same return value, or the same error code: Error.PC may differ. */
  predicate SameOutcome(o: Outcome, o': Outcome) {
    match (o, o')
    case (Returned(v), Returned(v')) => v == v'
    case (Failed(code, _), Failed(code', _)) => code == code'
    case (Panicked, Panicked) => true
    case _ => false
  }

  /** e' ends as e does and executes no more instructions. */
  predicate NoWorse(e: Execution, e': Execution) {
    SameOutcome(e.outcome, e'.outcome) && e'.steps <= e.steps
  }

  /** On every input, p' ends as p does and executes no more instructions. */
  ghost predicate Improves(p: seq<Instruction>, p': seq<Instruction>) {
    forall input :: NoWorse(Start(p, input), Start(p', input))
  }

  lemma ImprovesReflexive(p: seq<Instruction>)
    ensures Improves(p, p)
  {
  }

  lemma ImprovesTransitive(p: seq<Instruction>, q: seq<Instruction>, r: seq<Instruction>)
    requires Improves(p, q) && Improves(q, r)
    ensures Improves(p, r)
  {
    forall input ensures NoWorse(Start(p, input), Start(r, input)) {
      assert NoWorse(Start(p, input), Start(q, input));
      assert NoWorse(Start(q, input), Start(r, input));
    }
  }

  // ---------------------------------------------------------------------
  // Reachability
  // ---------------------------------------------------------------------

  /** Control may reach pc from the start. Jumps only go forward, so the
      definition recurses on the predecessor. */
  ghost predicate Reachable(p: seq<Instruction>, pc: nat)
    decreases pc
  {
    pc < |p| && (pc == 0 || exists q: nat | q < pc && q < |p| :: Reachable(p, q) && pc in Successors(p[q], q))
  }

  lemma SuccessorIsLater(i: Instruction, pc: nat, s: nat)
    requires s in Successors(i, pc)
    ensures s > pc
  {
  }

  lemma ReachableStep(p: seq<Instruction>, q: nat, s: nat)
    requires Reachable(p, q) && s in Successors(p[q], q) && s < |p|
    ensures Reachable(p, s)
  {
  }

  /** A set that holds 0 and is closed under successors holds everything
      reachable. */
  ghost predicate ClosedSet(p: seq<Instruction>, r: set<nat>) {
    && 0 in r
    && forall pc | pc in r :: pc < |p| && forall s | s in Successors(p[pc], pc) :: s in r
  }

  lemma {:induction false} ReachableInClosedSet(p: seq<Instruction>, r: set<nat>, pc: nat)
    requires ClosedSet(p, r) && Reachable(p, pc)
    ensures pc in r
    decreases pc
  {
    if pc > 0 {
      var q: nat :| q < pc && q < |p| && Reachable(p, q) && pc in Successors(p[q], q);
      ReachableInClosedSet(p, r, q);
    }
  }

  // ---------------------------------------------------------------------
  // Retargeting jumps in place
  // ---------------------------------------------------------------------

  /** Going to t' instead of t is a shortcut in p: t is a jump to t', or both
      are the same return. */
  ghost predicate Leads(p: seq<Instruction>, t: nat, t': nat) {
    && t < |p|
    && t' < |p|
    && (|| t == t'
        || (IsUnconditionalJump(p[t]) && t' == t + 1 + p[t].k)
        || (IsReturn(p[t]) && Equal(p[t], p[t'])))
  }

  /** One instruction of p' against the one it replaces in p. */
  ghost predicate Shortcut(p: seq<Instruction>, i': Instruction, pc: nat)
    requires pc < |p|
  {
    var i := p[pc];
    || i' == i
    || (&& IsConditionalJump(i)
        && i'.op == i.op && i'.k == i.k
        && Leads(p, pc + 1 + i.jt, pc + 1 + i'.jt)
        && Leads(p, pc + 1 + i.jf, pc + 1 + i'.jf))
    || (&& IsUnconditionalJump(i)
        && i'.op == i.op
        && Leads(p, pc + 1 + i.k, pc + 1 + i'.k))
    || (IsConditionalJump(i) && i.jt == i.jf && i' == Jump(JMP | JA, i.jt, 0, 0))
    || (IsUnconditionalJump(i) && pc + 1 + i.k < |p| && IsReturn(p[pc + 1 + i.k]) && i' == p[pc + 1 + i.k])
  }

  ghost predicate Retargeted(p: seq<Instruction>, p': seq<Instruction>) {
    && |p'| == |p|
    && forall pc | 0 <= pc < |p| :: Shortcut(p, p'[pc], pc)
  }

  lemma ShortcutValid(p: seq<Instruction>, i': Instruction, pc: nat)
    requires FlowsInside(p) && pc < |p| && Shortcut(p, i', pc)
    ensures OpValid(i') && TargetsWithin(i', pc, |p|)
  {
    var i := p[pc];
    assert OpValid(i) && TargetsWithin(i, pc, |p|);
    if IsConditionalJump(i) && i.jt == i.jf && i' == Jump(JMP | JA, i.jt, 0, 0) {
      assert pc + 1 + i.jt in Successors(i, pc);
      assert IsUnconditionalJump(i');
    } else if IsUnconditionalJump(i) && pc + 1 + i.k < |p| && IsReturn(p[pc + 1 + i.k]) && i' == p[pc + 1 + i.k] {
      assert OpValid(p[pc + 1 + i.k]);
    }
  }

  lemma RetargetedFlowsInside(p: seq<Instruction>, p': seq<Instruction>)
    requires FlowsInside(p) && Retargeted(p, p')
    ensures FlowsInside(p')
  {
    hide OpValid;
    hide TargetsWithin;
    forall pc | 0 <= pc < |p'|
      ensures OpValid(p'[pc]) && TargetsWithin(p'[pc], pc, |p'|)
    {
      ShortcutValid(p, p'[pc], pc);
    }
  }

  /** A shortcut ends the same way, in no more steps. */
  lemma LeadsRuns(p: seq<Instruction>, t: nat, t': nat, m: Machine, input: Input)
    requires FlowsInside(p) && Leads(p, t, t')
    ensures NoWorse(Run(p, input, t, m), Run(p, input, t', m))
  {
    hide Step;
    hide OpValid;
    if t != t' {
      assert OpValid(p[t]) && OpValid(p[t']);
      if IsUnconditionalJump(p[t]) && t' == t + 1 + p[t].k {
        UnconditionalShape(p[t], m, input);
      } else {
        EqualReturns(p[t], p[t'], m, input);
      }
    }
  }

  lemma NoWorseTransitive(e: Execution, e': Execution, e'': Execution)
    requires NoWorse(e, e') && NoWorse(e', e'')
    ensures NoWorse(e, e'')
  {
  }

  lemma NoWorseAfterStep(e: Execution, e': Execution)
    requires NoWorse(e, e')
    ensures NoWorse(Execution(e.outcome, e.steps + 1), Execution(e'.outcome, e'.steps + 1))
  {
  }

  lemma RunContinues(p: seq<Instruction>, pc: nat, m: Machine, input: Input, m': Machine, off: nat)
    requires pc < |p| && Step(p[pc], m, input) == Continue(m', off)
    ensures var rest := Run(p, input, pc + 1 + off, m');
            Run(p, input, pc, m) == Execution(rest.outcome, rest.steps + 1)
  {
  }

  /** A conditional jump whose targets became shortcuts. */
  lemma ConditionalRuns(p: seq<Instruction>, p': seq<Instruction>, pc: nat, m: Machine, input: Input)
    requires FlowsInside(p) && |p'| == |p| && pc < |p|
    requires OpValid(p[pc]) && OpValid(p'[pc]) && IsConditionalJump(p[pc]) && IsConditionalJump(p'[pc])
    requires p'[pc].op == p[pc].op && p'[pc].k == p[pc].k
    requires Leads(p, pc + 1 + p[pc].jt, pc + 1 + p'[pc].jt) && Leads(p, pc + 1 + p[pc].jf, pc + 1 + p'[pc].jf)
    requires NoWorse(Run(p, input, pc + 1 + p'[pc].jt, m), Run(p', input, pc + 1 + p'[pc].jt, m))
    requires NoWorse(Run(p, input, pc + 1 + p'[pc].jf, m), Run(p', input, pc + 1 + p'[pc].jf, m))
    ensures NoWorse(Run(p, input, pc, m), Run(p', input, pc, m))
  {
    hide *;
    var i, i' := p[pc], p'[pc];
    ConditionalShape(i, m, input);
    ConditionalShape(i', m, input);
    var taken := Test(i.op, i.k, m).value;
    var off, off' := if taken then i.jt else i.jf, if taken then i'.jt else i'.jf;
    RunContinues(p, pc, m, input, m, off);
    RunContinues(p', pc, m, input, m, off');
    LeadsRuns(p, pc + 1 + off, pc + 1 + off', m, input);
    NoWorseTransitive(
      Run(p, input, pc + 1 + off, m), Run(p, input, pc + 1 + off', m), Run(p', input, pc + 1 + off', m));
    NoWorseAfterStep(Run(p, input, pc + 1 + off, m), Run(p', input, pc + 1 + off', m));
  }

  /** A direct jump whose target became a shortcut. */
  lemma UnconditionalRuns(p: seq<Instruction>, p': seq<Instruction>, pc: nat, m: Machine, input: Input)
    requires FlowsInside(p) && |p'| == |p| && pc < |p|
    requires OpValid(p[pc]) && OpValid(p'[pc]) && IsUnconditionalJump(p[pc]) && IsUnconditionalJump(p'[pc])
    requires Leads(p, pc + 1 + p[pc].k, pc + 1 + p'[pc].k)
    requires NoWorse(Run(p, input, pc + 1 + p'[pc].k, m), Run(p', input, pc + 1 + p'[pc].k, m))
    ensures NoWorse(Run(p, input, pc, m), Run(p', input, pc, m))
  {
    hide *;
    var t, t' := pc + 1 + p[pc].k, pc + 1 + p'[pc].k;
    UnconditionalShape(p[pc], m, input);
    UnconditionalShape(p'[pc], m, input);
    RunContinues(p, pc, m, input, m, p[pc].k);
    RunContinues(p', pc, m, input, m, p'[pc].k);
    LeadsRuns(p, t, t', m, input);
    NoWorseTransitive(Run(p, input, t, m), Run(p, input, t', m), Run(p', input, t', m));
    NoWorseAfterStep(Run(p, input, t, m), Run(p', input, t', m));
  }

  /** A conditional jump with one target that became a direct jump. */
  lemma SameTargetRuns(p: seq<Instruction>, p': seq<Instruction>, pc: nat, m: Machine, input: Input)
    requires |p'| == |p| && pc < |p|
    requires OpValid(p[pc]) && OpValid(p'[pc]) && IsConditionalJump(p[pc]) && IsUnconditionalJump(p'[pc])
    requires p[pc].jt == p[pc].jf == p'[pc].k
    requires NoWorse(Run(p, input, pc + 1 + p'[pc].k, m), Run(p', input, pc + 1 + p'[pc].k, m))
    ensures NoWorse(Run(p, input, pc, m), Run(p', input, pc, m))
  {
    hide *;
    ConditionalShape(p[pc], m, input);
    UnconditionalShape(p'[pc], m, input);
    RunContinues(p, pc, m, input, m, p[pc].jt);
    RunContinues(p', pc, m, input, m, p'[pc].k);
    NoWorseAfterStep(Run(p, input, pc + 1 + p[pc].jt, m), Run(p', input, pc + 1 + p'[pc].k, m));
  }

  /** A jump to a return that became a copy of the return. */
  lemma ReturnCopyRuns(p: seq<Instruction>, p': seq<Instruction>, pc: nat, m: Machine, input: Input)
    requires |p'| == |p| && pc < |p| && pc + 1 + p[pc].k < |p|
    requires OpValid(p[pc]) && OpValid(p'[pc]) && IsUnconditionalJump(p[pc]) && IsReturn(p'[pc])
    requires p'[pc] == p[pc + 1 + p[pc].k]
    ensures NoWorse(Run(p, input, pc, m), Run(p', input, pc, m))
  {
    hide Step;
    hide OpValid;
    UnconditionalShape(p[pc], m, input);
    ReturnShape(p'[pc], m, input);
    RunContinues(p, pc, m, input, m, p[pc].k);
  }

  lemma SameStepRuns(p: seq<Instruction>, p': seq<Instruction>, pc: nat, pc': nat, m: Machine, input: Input)
    requires pc < |p| && pc' < |p'|
    requires Step(p[pc], m, input) == Step(p'[pc'], m, input)
    requires !Step(p[pc], m, input).Continue?
    ensures NoWorse(Run(p, input, pc, m), Run(p', input, pc', m))
  {
    hide Step;
  }

  /** The retargeted program simulates the original from every pc and every
      machine state. */
  lemma {:induction false} RetargetedRuns(p: seq<Instruction>, p': seq<Instruction>, pc: nat, m: Machine, input: Input)
    requires FlowsInside(p) && Retargeted(p, p') && pc < |p|
    ensures NoWorse(Run(p, input, pc, m), Run(p', input, pc, m))
    decreases |p| - pc
  {
    hide Step;
    hide OpValid;
    hide Equal;
    hide Run;
    hide NoWorse;
    hide Test;
    var i, i' := p[pc], p'[pc];
    assert Shortcut(p, i', pc);
    assert OpValid(i) && TargetsWithin(i, pc, |p|);
    ShortcutValid(p, i', pc);
    if i' == i {
      StepSuccessor(i, pc, m, input);
      match Step(i, m, input) {
        case Continue(m', off) =>
          RetargetedRuns(p, p', pc + 1 + off, m', input);
          RunContinues(p, pc, m, input, m', off);
          RunContinues(p', pc, m, input, m', off);
          NoWorseAfterStep(Run(p, input, pc + 1 + off, m'), Run(p', input, pc + 1 + off, m'));
        case _ =>
          SameStepRuns(p, p', pc, pc, m, input);
      }
    } else if IsConditionalJump(i) && i'.op == i.op {
      RetargetedRuns(p, p', pc + 1 + i'.jt, m, input);
      RetargetedRuns(p, p', pc + 1 + i'.jf, m, input);
      ConditionalRuns(p, p', pc, m, input);
    } else if IsConditionalJump(i) {
      assert pc + 1 + i.jt in Successors(i, pc);
      RetargetedRuns(p, p', pc + 1 + i.jt, m, input);
      SameTargetRuns(p, p', pc, m, input);
    } else if i'.op == i.op {
      RetargetedRuns(p, p', pc + 1 + i'.k, m, input);
      UnconditionalRuns(p, p', pc, m, input);
    } else {
      ReturnCopyRuns(p, p', pc, m, input);
    }
  }

  lemma RetargetedImproves(p: seq<Instruction>, p': seq<Instruction>)
    requires FlowsInside(p) && Retargeted(p, p')
    ensures FlowsInside(p') && Improves(p, p')
  {
    RetargetedFlowsInside(p, p');
    forall input ensures NoWorse(Start(p, input), Start(p', input)) {
      RetargetedRuns(p, p', 0, ZeroMachine(), input);
    }
  }
}
