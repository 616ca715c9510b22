/** Removing instructions (codeRemoval and decrementJumps in optimizer.go):
    the index arithmetic, and the simulation argument for removing one
    instruction that is never reached or has no effect when it is. */
module Removal {
  import opened Bpf
  import opened Interpreter
  import opened Validator
  import opened Simulation

  // ---------------------------------------------------------------------
  // Removing one instruction
  // ---------------------------------------------------------------------

  /** The jump at pc after the instruction at `target`, past it, is gone:
      jumps beyond `target` get shorter by one. */
  function DecrementedJump(i: Instruction, pc: nat, target: nat): Instruction
    requires pc < target
  {
    if !IsJump(i) then i
    else if IsUnconditionalJump(i) then
      if pc + i.k + 1 > target then i.(k := i.k - 1) else i
    else
      i.(jt := if pc + i.jt + 1 > target then i.jt - 1 else i.jt,
         jf := if pc + i.jf + 1 > target then i.jf - 1 else i.jf)
  }

  function RemoveAt(p: seq<Instruction>, r: nat): seq<Instruction>
    requires r < |p|
  {
    seq(|p| - 1, pc requires 0 <= pc < |p| - 1 => if pc < r then DecrementedJump(p[pc], pc, r) else p[pc + 1])
  }

  /** Where pc is after the removal at r; control that went to r goes to the
      instruction that followed it. */
  function Shifted(pc: nat, r: nat): nat {
    if pc <= r then pc else pc - 1
  }

  /** Every edge between kept instructions is the shifted edge. */
  lemma ShiftedSuccessors(p: seq<Instruction>, r: nat, pc: nat)
    requires r < |p| && pc < |p| && pc != r
    ensures var i := RemoveAt(p, r)[Shifted(pc, r)];
            && Successors(i, Shifted(pc, r)) == (set s | s in Successors(p[pc], pc) :: Shifted(s, r))
            && i.op == p[pc].op
            && (IsJump(i) || i == p[pc])
  {
    var i, i' := p[pc], RemoveAt(p, r)[Shifted(pc, r)];
    if IsConditionalJump(i) {
      assert Successors(i', Shifted(pc, r)) == {Shifted(pc + 1 + i.jt, r), Shifted(pc + 1 + i.jf, r)};
    }
  }

  lemma ShiftedValid(p: seq<Instruction>, r: nat, pc: nat)
    requires r < |p| && pc < |p| && pc != r && OpValid(p[pc])
    ensures OpValid(RemoveAt(p, r)[Shifted(pc, r)])
  {
    hide CheckInstruction;
    ShiftedSuccessors(p, r, pc);
  }

  /** One step of a kept instruction, before and after the removal. */
  lemma ShiftedStep(p: seq<Instruction>, r: nat, pc: nat, m: Machine, input: Input)
    requires r < |p| && pc < |p| && pc != r && OpValid(p[pc])
    ensures var s, s' := Step(p[pc], m, input), Step(RemoveAt(p, r)[Shifted(pc, r)], m, input);
            if s.Continue? then
              && s'.Continue? && s'.machine == s.machine
              && Shifted(pc, r) + 1 + s'.off == Shifted(pc + 1 + s.off, r)
            else s' == s
  {
    hide Step;
    hide OpValid;
    hide Test;
    var i, i' := p[pc], RemoveAt(p, r)[Shifted(pc, r)];
    ShiftedValid(p, r, pc);
    if IsUnconditionalJump(i) {
      UnconditionalShape(i, m, input);
      UnconditionalShape(i', m, input);
    } else if IsConditionalJump(i) {
      ConditionalShape(i, m, input);
      ConditionalShape(i', m, input);
    } else if IsReturn(i) {
      ReturnShape(i, m, input);
    } else {
      PlainShape(i, m, input);
    }
  }

  /** inv holds along every run of p, and when a run is at r under inv, the
      instruction there does nothing. */
  ghost predicate SkipsAt(p: seq<Instruction>, r: nat, input: Input, inv: (nat, Machine) -> bool) {
    && r < |p|
    && (forall m: Machine :: inv(r, m) ==> Step(p[r], m, input) == Continue(m, 0))
    && (forall pc: nat, m: Machine :: inv(pc, m) ==>
          && pc < |p|
          && OpValid(p[pc])
          && (Step(p[pc], m, input).Continue? ==>
                inv(pc + 1 + Step(p[pc], m, input).off, Step(p[pc], m, input).machine)))
  }

  lemma {:induction false} RemoveRuns(p: seq<Instruction>, r: nat, pc: nat, m: Machine, input: Input,
                                      inv: (nat, Machine) -> bool)
    requires SkipsAt(p, r, input, inv) && inv(pc, m)
    ensures NoWorse(Run(p, input, pc, m), Run(RemoveAt(p, r), input, Shifted(pc, r), m))
    decreases |p| - pc
  {
    hide Step;
    hide OpValid;
    hide RemoveAt;
    hide Run;
    var p' := RemoveAt(p, r);
    RemoveAtLength(p, r);
    if pc == r {
      RemoveRuns(p, r, r + 1, m, input, inv);
      RunContinues(p, r, m, input, m, 0);
    } else {
      ShiftedStep(p, r, pc, m, input);
      ShiftedSuccessors(p, r, pc);
      var s, s' := Step(p[pc], m, input), Step(p'[Shifted(pc, r)], m, input);
      if s.Continue? {
        RemoveRuns(p, r, pc + 1 + s.off, s.machine, input, inv);
        RunContinues(p, pc, m, input, s.machine, s.off);
        RunContinues(p', Shifted(pc, r), m, input, s'.machine, s'.off);
      } else {
        SameStepRuns(p, p', pc, Shifted(pc, r), m, input);
      }
    }
  }

  // ---------------------------------------------------------------------
  // Validity through removals: only a set of pcs, closed under successors,
  // need be valid while unreachable instructions are being dropped
  // ---------------------------------------------------------------------

  ghost predicate ValidOn(p: seq<Instruction>, live: set<nat>) {
    && ClosedSet(p, live)
    && forall pc | pc in live :: OpValid(p[pc])
  }

  function AllPcs(n: nat): (pcs: set<nat>)
    ensures forall pc :: pc in pcs <==> 0 <= pc < n
  {
    if n == 0 then {} else AllPcs(n - 1) + {n - 1}
  }

  lemma FlowsInsideIffValidOnAll(p: seq<Instruction>)
    ensures FlowsInside(p) <==> |p| > 0 && ValidOn(p, AllPcs(|p|))
  {
    hide OpValid;
    if FlowsInside(p) {
      forall pc: nat | pc < |p|
        ensures OpValid(p[pc]) && forall s | s in Successors(p[pc], pc) :: s in AllPcs(|p|)
      {
        assert TargetsWithin(p[pc], pc, |p|);
      }
    } else if |p| > 0 && ValidOn(p, AllPcs(|p|)) {
      forall pc | 0 <= pc < |p|
        ensures OpValid(p[pc]) && TargetsWithin(p[pc], pc, |p|)
      {
        assert pc in AllPcs(|p|);
      }
    }
  }

  /** The live pcs after the removal at r. */
  function ShiftedLive(live: set<nat>, r: nat): set<nat> {
    set pc | pc in live && pc != r :: Shifted(pc, r)
  }

  lemma RemoveValidOn(p: seq<Instruction>, r: nat, live: set<nat>)
    requires r < |p| && ValidOn(p, live)
    requires r in live ==> Successors(p[r], r) == {r + 1}
    ensures ValidOn(RemoveAt(p, r), ShiftedLive(live, r))
  {
    hide OpValid;
    hide RemoveAt;
    var p', live' := RemoveAt(p, r), ShiftedLive(live, r);
    assert 0 in live' by {
      if r == 0 {
        assert 1 in live && Shifted(1, r) == 0;
      } else {
        assert Shifted(0, r) == 0;
      }
    }
    forall pc' | pc' in live'
      ensures pc' < |p'| && OpValid(p'[pc']) && forall s' | s' in Successors(p'[pc'], pc') :: s' in live'
    {
      RemoveAtLength(p, r);
      var pc :| pc in live && pc != r && Shifted(pc, r) == pc';
      ShiftedSuccessors(p, r, pc);
      ShiftedValid(p, r, pc);
      forall s' | s' in Successors(p'[pc'], pc')
        ensures s' in live'
      {
        var s :| s in Successors(p[pc], pc) && Shifted(s, r) == s';
        assert s in live;
        if s == r {
          assert r + 1 in live && Shifted(r + 1, r) == r;
        }
      }
    }
  }

  lemma RemoveAtLength(p: seq<Instruction>, r: nat)
    requires r < |p|
    ensures |RemoveAt(p, r)| == |p| - 1
  {
  }

  // ---------------------------------------------------------------------
  // Removing many instructions, from the last one down
  // ---------------------------------------------------------------------

  ghost predicate Increasing(rs: seq<nat>) {
    forall i, j | 0 <= i < j < |rs| :: rs[i] < rs[j]
  }

  ghost predicate Below(rs: seq<nat>, n: nat) {
    forall i | 0 <= i < |rs| :: rs[i] < n
  }

  /** The loop of codeRemoval.Apply on a sorted list of indices. */
  ghost function RemoveAll(p: seq<Instruction>, rs: seq<nat>): seq<Instruction>
    requires Increasing(rs) && Below(rs, |p|)
    ensures |RemoveAll(p, rs)| == |p| - |rs|
    decreases |rs|
  {
    if rs == [] then p
    else
      var r := rs[|rs| - 1];
      RemoveAll(RemoveAt(p, r), rs[..|rs| - 1])
  }

  predicate Plain(i: Instruction) {
    !IsJump(i) && !IsReturn(i)
  }

  /** No instruction of p' is new, jumps and returns apart. */
  ghost predicate NoNewPlain(p: seq<Instruction>, p': seq<Instruction>) {
    forall pc | 0 <= pc < |p'| :: Plain(p'[pc]) ==> p'[pc] in p
  }

  lemma RemoveAtNoNewPlain(p: seq<Instruction>, r: nat)
    requires r < |p|
    ensures NoNewPlain(p, RemoveAt(p, r))
  {
    var p' := RemoveAt(p, r);
    forall pc | 0 <= pc < |p'| && Plain(p'[pc])
      ensures p'[pc] in p
    {
      assert p'[pc] == if pc < r then p[pc] else p[pc + 1];
    }
  }

  lemma NoNewPlainTransitive(p: seq<Instruction>, q: seq<Instruction>, r: seq<Instruction>)
    requires NoNewPlain(p, q) && NoNewPlain(q, r)
    ensures NoNewPlain(p, r)
  {
    hide Plain;
    forall pc | 0 <= pc < |r| && Plain(r[pc])
      ensures r[pc] in p
    {
      var k :| 0 <= k < |q| && q[k] == r[pc];
    }
  }

  /** Removing instructions that are not live. */
  lemma RemoveDeadAt(p: seq<Instruction>, r: nat, live: set<nat>)
    requires ValidOn(p, live) && r < |p| && r !in live
    ensures ValidOn(RemoveAt(p, r), ShiftedLive(live, r))
    ensures Improves(p, RemoveAt(p, r))
  {
    hide Step;
    hide OpValid;
    hide RemoveAt;
    hide NoWorse;
    hide Run;
    RemoveValidOn(p, r, live);
    forall input
      ensures NoWorse(Start(p, input), Start(RemoveAt(p, r), input))
    {
      var inv := (pc: nat, m: Machine) => pc in live;
      forall pc: nat, m: Machine | inv(pc, m)
        ensures Step(p[pc], m, input).Continue? ==>
                  inv(pc + 1 + Step(p[pc], m, input).off, Step(p[pc], m, input).machine)
      {
        StepSuccessor(p[pc], pc, m, input);
      }
      assert SkipsAt(p, r, input, inv);
      RemoveRuns(p, r, 0, ZeroMachine(), input, inv);
    }
  }

  lemma {:induction false} RemoveAllDead(p: seq<Instruction>, rs: seq<nat>, live: set<nat>)
    requires Increasing(rs) && Below(rs, |p|)
    requires ValidOn(p, live)
    requires forall r | r in rs :: r !in live
    requires forall pc | 0 <= pc < |p| :: pc in live || pc in rs
    ensures FlowsInside(RemoveAll(p, rs))
    ensures Improves(p, RemoveAll(p, rs))
    ensures NoNewPlain(p, RemoveAll(p, rs))
    decreases |rs|
  {
    hide OpValid;
    hide Improves;
    hide RemoveAt;
    hide NoNewPlain;
    if rs == [] {
      assert live == AllPcs(|p|) by {
        assert forall pc | 0 <= pc < |p| :: pc in live;
      }
      FlowsInsideIffValidOnAll(p);
      ImprovesReflexive(p);
      NoNewPlainReflexive(p);
    } else {
      var r, rest := rs[|rs| - 1], rs[..|rs| - 1];
      var p1, live1 := RemoveAt(p, r), ShiftedLive(live, r);
      RemoveAtLength(p, r);
      RemoveDeadAt(p, r, live);
      forall x | x in rest
        ensures x !in live1
      {
        assert x < r;
      }
      forall pc | 0 <= pc < |p1|
        ensures pc in live1 || pc in rest
      {
        var y := if pc < r then pc else pc + 1;
        assert Shifted(y, r) == pc;
        if y !in live {
          assert y in rs;
          var k :| 0 <= k < |rs| && rs[k] == y;
          assert k < |rs| - 1;
          assert rest[k] == y;
        }
      }
      RemoveAllDead(p1, rest, live1);
      ImprovesTransitive(p, p1, RemoveAll(p, rs));
      RemoveAtNoNewPlain(p, r);
      NoNewPlainTransitive(p, p1, RemoveAll(p, rs));
    }
  }

  lemma NoNewPlainReflexive(p: seq<Instruction>)
    ensures NoNewPlain(p, p)
  {
  }

  // ---------------------------------------------------------------------
  // Jumps of length zero
  // ---------------------------------------------------------------------

  predicate IsZeroJump(i: Instruction) {
    IsUnconditionalJump(i) && i.k == 0
  }

  lemma RemoveZeroJumpAt(p: seq<Instruction>, r: nat)
    requires FlowsInside(p) && r < |p| && IsZeroJump(p[r])
    ensures FlowsInside(RemoveAt(p, r))
    ensures Improves(p, RemoveAt(p, r))
  {
    hide Step;
    hide OpValid;
    hide RemoveAt;
    hide NoWorse;
    hide Run;
    RemoveLiveAt(p, r);
    forall input
      ensures NoWorse(Start(p, input), Start(RemoveAt(p, r), input))
    {
      var inv := (pc: nat, m: Machine) => pc < |p|;
      forall pc: nat, m: Machine | inv(pc, m)
        ensures Step(p[pc], m, input).Continue? ==>
                  inv(pc + 1 + Step(p[pc], m, input).off, Step(p[pc], m, input).machine)
      {
        assert TargetsWithin(p[pc], pc, |p|);
        StepSuccessor(p[pc], pc, m, input);
      }
      forall m: Machine
        ensures Step(p[r], m, input) == Continue(m, 0)
      {
        UnconditionalShape(p[r], m, input);
      }
      assert SkipsAt(p, r, input, inv);
      RemoveRuns(p, r, 0, ZeroMachine(), input, inv);
    }
  }

  /** Removing an instruction whose only successor is the next one keeps the
      program well formed. */
  lemma RemoveLiveAt(p: seq<Instruction>, r: nat)
    requires FlowsInside(p) && r < |p| && Successors(p[r], r) == {r + 1}
    ensures FlowsInside(RemoveAt(p, r))
  {
    hide OpValid;
    hide RemoveAt;
    hide Successors;
    FlowsInsideIffValidOnAll(p);
    RemoveValidOn(p, r, AllPcs(|p|));
    RemoveAtLength(p, r);
    assert r + 1 < |p| by {
      assert TargetsWithin(p[r], r, |p|);
      assert r + 1 in Successors(p[r], r);
    }
    assert ShiftedLive(AllPcs(|p|), r) == AllPcs(|p| - 1) by {
      forall pc | 0 <= pc < |p| - 1
        ensures pc in ShiftedLive(AllPcs(|p|), r)
      {
        var y := if pc < r then pc else pc + 1;
        assert y in AllPcs(|p|) && y != r && Shifted(y, r) == pc;
      }
    }
    FlowsInsideIffValidOnAll(RemoveAt(p, r));
  }

  lemma {:induction false} RemoveAllZeroJumps(p: seq<Instruction>, rs: seq<nat>)
    requires Increasing(rs) && Below(rs, |p|)
    requires FlowsInside(p)
    requires forall i | 0 <= i < |rs| :: IsZeroJump(p[rs[i]])
    ensures FlowsInside(RemoveAll(p, rs))
    ensures Improves(p, RemoveAll(p, rs))
    ensures NoNewPlain(p, RemoveAll(p, rs))
    decreases |rs|
  {
    hide FlowsInside;
    hide Improves;
    hide NoNewPlain;
    if rs == [] {
      ImprovesReflexive(p);
      NoNewPlainReflexive(p);
    } else {
      var r, rest := rs[|rs| - 1], rs[..|rs| - 1];
      var p1 := RemoveAt(p, r);
      RemoveZeroJumpAt(p, r);
      RemoveAllZeroJumps(p1, rest);
      ImprovesTransitive(p, p1, RemoveAll(p, rs));
      RemoveAtNoNewPlain(p, r);
      NoNewPlainTransitive(p, p1, RemoveAll(p, rs));
    }
  }
}
