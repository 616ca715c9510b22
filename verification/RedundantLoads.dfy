/** When a load into A may be dropped (removeRedundantLoads in optimizer.go).

    The pass walks back from a load along unique predecessors to the last
    instruction that modified A, and drops the load if the two are Equal. It
    does not look at writes to X or to the M registers on the way. */
module RedundantLoads {
  import opened Bpf
  import opened Interpreter
  import opened Validator
  import opened Simulation
  import opened Removal

  /** The entry of reverseWalk for pc: who may go to it. */
  function Predecessors(p: seq<Instruction>, pc: nat): set<nat> {
    set q: nat | q < |p| && pc in Successors(p[q], q) :: q
  }

  /** The element of a set that has one. */
  ghost function Only(s: set<nat>): (x: nat)
    requires |s| == 1
    ensures x in s
  {
    var x :| x in s;
    x
  }

  lemma OnlyIsUnique(s: set<nat>, x: nat)
    requires |s| == 1 && x in s
    ensures x == Only(s)
  {
    assert |s - {x}| == 0;
  }

  /** The backwards walk of the pass: the instruction that last modified A on
      the way to pc, or -1 when the walk meets the start of the program or a
      pc with several predecessors. */
  ghost function LastModifiedA(p: seq<Instruction>, pc: nat): (r: int)
    ensures r == -1 || (0 <= r < pc && r < |p|)
    decreases pc
  {
    var before := Predecessors(p, pc);
    if |before| != 1 then -1
    else
      var q := Only(before);
      if ModifiesRegisterA(p[q]) then q else LastModifiedA(p, q)
  }

  ghost predicate RedundantLoad(p: seq<Instruction>, pc: nat) {
    && pc < |p|
    && Class(p[pc]) == LD
    && LastModifiedA(p, pc) != -1
    && Equal(p[pc], p[LastModifiedA(p, pc)])
  }

  // ---------------------------------------------------------------------
  // The hypothesis the pass needs
  // ---------------------------------------------------------------------

  predicate IsIndirectLoad(i: Instruction) {
    Class(i) == LD && i.op & LOAD_MODE_MASK == IND
  }

  predicate IsMemoryLoad(i: Instruction) {
    Class(i) == LD && i.op & LOAD_MODE_MASK == MEM
  }

  predicate WritesX(i: Instruction) {
    Class(i) == LDX || i.op == MISC | TXA
  }

  /** Instruction j may change what load i reads, without modifying A: i adds
      X to its offset and j writes X, or j stores X in the M register i reads. */
  predicate Interferes(j: Instruction, i: Instruction) {
    || (IsIndirectLoad(i) && WritesX(j))
    || (IsMemoryLoad(i) && Class(j) == STX && j.k == i.k)
  }

  /** No instruction of the program may change what a load of the program
      reads. */
  ghost predicate LoadsUndisturbed(p: seq<Instruction>) {
    forall i, j | i in p && j in p :: !Interferes(j, i)
  }

  lemma LoadsUndisturbedMonotone(p: seq<Instruction>, p': seq<Instruction>)
    requires LoadsUndisturbed(p) && NoNewPlain(p, p')
    ensures LoadsUndisturbed(p')
  {
    forall i, j | i in p' && j in p'
      ensures !Interferes(j, i)
    {
      var a :| 0 <= a < |p'| && p'[a] == i;
      var b :| 0 <= b < |p'| && p'[b] == j;
      assert Interferes(j, i) ==> Plain(i) && Plain(j);
    }
  }

  // ---------------------------------------------------------------------
  // Loads and register A
  // ---------------------------------------------------------------------

  /** Executing i from m changes nothing: A already holds what i loads. */
  ghost predicate Idle(i: Instruction, m: Machine, input: Input) {
    Step(i, m, input) == Continue(m, 0)
  }

  /** After a load, an equal load is idle. */
  lemma LoadThenIdle(i: Instruction, j: Instruction, m: Machine, input: Input)
    requires OpValid(i) && OpValid(j) && Class(i) == LD && Equal(i, j)
    requires Step(j, m, input).Continue?
    ensures Idle(i, Step(j, m, input).machine, input)
  {
    hide Load8;
    hide Load16;
    hide Load32;
    hide Wrap;
  }

  /** What an instruction that does not modify A may do. */
  lemma KeepsA(q: Instruction, m: Machine, input: Input)
    requires OpValid(q) && !ModifiesRegisterA(q) && Step(q, m, input).Continue?
    ensures var m' := Step(q, m, input).machine;
            && m'.a == m.a
            && (!WritesX(q) ==> m'.x == m.x)
            && (Class(q) != ST && Class(q) != STX ==> m'.mem == m.mem)
            && (Class(q) == ST ==> q.k < |m.mem| && m'.mem == m.mem[q.k := m.a])
            && (Class(q) == STX ==> q.k < |m.mem| && m'.mem == m.mem[q.k := m.x])
  {
    hide Load8;
    hide Bitwise;
    hide Wrap;
  }

  /** A load stays idle across an instruction that neither modifies A nor
      interferes. */
  lemma IdlePreserved(i: Instruction, q: Instruction, m: Machine, input: Input)
    requires OpValid(i) && OpValid(q) && Class(i) == LD
    requires !ModifiesRegisterA(q) && !Interferes(q, i)
    requires Idle(i, m, input) && Step(q, m, input).Continue?
    ensures Idle(i, Step(q, m, input).machine, input)
  {
    hide Load8;
    hide Load16;
    hide Load32;
    hide Wrap;
    hide StepLoadX;
    hide StepStore;
    hide StepAlu;
    hide StepJump;
    hide StepMisc;
    hide StepReturn;
    KeepsA(q, m, input);
  }

  // ---------------------------------------------------------------------
  // The walked chain
  // ---------------------------------------------------------------------

  /** The pcs strictly after the last modifier of A, up to pc. */
  ghost function Chain(p: seq<Instruction>, pc: nat): set<nat>
    requires LastModifiedA(p, pc) != -1
    decreases pc
  {
    var q := Only(Predecessors(p, pc));
    if ModifiesRegisterA(p[q]) then {pc} else {pc} + Chain(p, q)
  }

  /** Control enters the chain only from the last modifier of A, and stays in
      it over instructions that do not modify A. */
  lemma {:induction false} ChainEntry(p: seq<Instruction>, pc: nat, c: nat, q: nat)
    requires LastModifiedA(p, pc) != -1 && c in Chain(p, pc)
    requires q < |p| && c in Successors(p[q], q)
    ensures q == LastModifiedA(p, pc) || (q in Chain(p, pc) && !ModifiesRegisterA(p[q]))
    decreases pc
  {
    var b := Only(Predecessors(p, pc));
    if c == pc {
      assert q in Predecessors(p, pc);
      OnlyIsUnique(Predecessors(p, pc), q);
      if !ModifiesRegisterA(p[b]) { ChainHoldsEnd(p, b); }
    } else {
      ChainEntry(p, b, c, q);
    }
  }

  lemma ChainHoldsEnd(p: seq<Instruction>, pc: nat)
    requires LastModifiedA(p, pc) != -1
    ensures pc in Chain(p, pc)
  {
  }

  lemma {:induction false} ChainIsPositive(p: seq<Instruction>, pc: nat)
    requires LastModifiedA(p, pc) != -1
    ensures 0 !in Chain(p, pc)
    decreases pc
  {
    var b := Only(Predecessors(p, pc));
    SuccessorIsLater(p[b], b, pc);
    if !ModifiesRegisterA(p[b]) { ChainIsPositive(p, b); }
  }

  // ---------------------------------------------------------------------
  // Removing one redundant load, then all of them
  // ---------------------------------------------------------------------

  /** No instruction the walk from r passes over may change what r loads. */
  ghost predicate ChainUndisturbed(p: seq<Instruction>, r: nat)
    requires RedundantLoad(p, r)
  {
    forall c | c in Chain(p, r) && c < |p| :: !Interferes(p[c], p[r])
  }

  lemma LoadsUndisturbedChain(p: seq<Instruction>, r: nat)
    requires LoadsUndisturbed(p) && RedundantLoad(p, r)
    ensures ChainUndisturbed(p, r)
  {
    hide Interferes;
    hide Chain;
    forall c | c in Chain(p, r) && c < |p|
      ensures !Interferes(p[c], p[r])
    {
      assert p[c] in p && p[r] in p;
    }
  }

  /** Along every run, whenever control is in the chain of the redundant load
      at r, that load is idle. */
  lemma ChainStep(p: seq<Instruction>, r: nat, pc: nat, m: Machine, input: Input)
    requires FlowsInside(p) && RedundantLoad(p, r) && ChainUndisturbed(p, r) && pc < |p|
    requires pc in Chain(p, r) ==> Idle(p[r], m, input)
    requires Step(p[pc], m, input).Continue?
    ensures var s := Step(p[pc], m, input);
            && pc + 1 + s.off < |p|
            && (pc + 1 + s.off in Chain(p, r) ==> Idle(p[r], s.machine, input))
  {
    hide Step;
    hide OpValid;
    hide Chain;
    hide Interferes;
    hide Equal;
    hide Idle;
    assert OpValid(p[pc]) && OpValid(p[r]) && TargetsWithin(p[pc], pc, |p|);
    StepSuccessor(p[pc], pc, m, input);
    var s := Step(p[pc], m, input);
    var last := LastModifiedA(p, r);
    if pc + 1 + s.off in Chain(p, r) {
      ChainEntry(p, r, pc + 1 + s.off, pc);
      if pc == last {
        assert OpValid(p[last]);
        LoadThenIdle(p[r], p[last], m, input);
      } else {
        IdlePreserved(p[r], p[pc], m, input);
      }
    }
  }

  lemma RemoveLoadAt(p: seq<Instruction>, r: nat)
    requires FlowsInside(p) && RedundantLoad(p, r) && ChainUndisturbed(p, r)
    ensures Improves(p, RemoveAt(p, r))
  {
    hide Step;
    hide OpValid;
    hide RemoveAt;
    hide NoWorse;
    hide Run;
    hide ChainUndisturbed;
    hide Chain;
    hide Equal;
    forall input
      ensures NoWorse(Start(p, input), Start(RemoveAt(p, r), input))
    {
      var inv := (pc: nat, m: Machine) => pc < |p| && (pc in Chain(p, r) ==> Idle(p[r], m, input));
      forall pc: nat, m: Machine | inv(pc, m)
        ensures Step(p[pc], m, input).Continue? ==>
                  inv(pc + 1 + Step(p[pc], m, input).off, Step(p[pc], m, input).machine)
      {
        if Step(p[pc], m, input).Continue? {
          ChainStep(p, r, pc, m, input);
        }
      }
      ChainHoldsEnd(p, r);
      ChainIsPositive(p, r);
      assert SkipsAt(p, r, input, inv);
      RemoveRuns(p, r, 0, ZeroMachine(), input, inv);
    }
  }

  lemma RemoveLoadFlowsInside(p: seq<Instruction>, r: nat)
    requires FlowsInside(p) && r < |p| && Class(p[r]) == LD
    ensures FlowsInside(RemoveAt(p, r))
  {
    hide OpValid;
    hide RemoveAt;
    RemoveLiveAt(p, r);
  }

  /** A removal does not disturb the walks below it. */
  lemma {:induction false} WalkBelowRemoval(p: seq<Instruction>, r: nat, pc: nat)
    requires pc < r < |p|
    ensures LastModifiedA(RemoveAt(p, r), pc) == LastModifiedA(p, pc)
    decreases pc
  {
    hide Successors;
    hide RemoveAt;
    var p' := RemoveAt(p, r);
    RemoveAtLength(p, r);
    PredecessorsBelowRemoval(p, r, pc);
    var before := Predecessors(p, pc);
    if |before| == 1 {
      var q := Only(before);
      SuccessorIsLater(p[q], q, pc);
      ShiftedSuccessors(p, r, q);
      if !ModifiesRegisterA(p[q]) {
        WalkBelowRemoval(p, r, q);
      }
    }
  }

  lemma PredecessorsBelowRemoval(p: seq<Instruction>, r: nat, pc: nat)
    requires pc < r < |p|
    ensures Predecessors(RemoveAt(p, r), pc) == Predecessors(p, pc)
  {
    hide Successors;
    hide RemoveAt;
    var p' := RemoveAt(p, r);
    RemoveAtLength(p, r);
    forall q: nat
      ensures q in Predecessors(p', pc) <==> q in Predecessors(p, pc)
    {
      if q in Predecessors(p', pc) {
        SuccessorIsLater(p'[q], q, pc);
        ShiftedSuccessors(p, r, q);
      }
      if q in Predecessors(p, pc) {
        SuccessorIsLater(p[q], q, pc);
        ShiftedSuccessors(p, r, q);
        assert Shifted(pc, r) == pc;
      }
    }
  }

  lemma RedundantBelowRemoval(p: seq<Instruction>, r: nat, pc: nat)
    requires pc < r < |p| && RedundantLoad(p, pc)
    ensures RedundantLoad(RemoveAt(p, r), pc)
  {
    WalkBelowRemoval(p, r, pc);
  }

  lemma {:induction false} RemoveAllLoads(p: seq<Instruction>, rs: seq<nat>)
    requires Increasing(rs) && Below(rs, |p|)
    requires FlowsInside(p)
    requires forall i | 0 <= i < |rs| :: RedundantLoad(p, rs[i])
    ensures FlowsInside(RemoveAll(p, rs))
    ensures NoNewPlain(p, RemoveAll(p, rs))
    ensures LoadsUndisturbed(p) ==> Improves(p, RemoveAll(p, rs))
    decreases |rs|
  {
    hide FlowsInside;
    hide Improves;
    hide NoNewPlain;
    hide RemoveAt;
    hide LoadsUndisturbed;
    if rs == [] {
      ImprovesReflexive(p);
      NoNewPlainReflexive(p);
    } else {
      var r, rest := rs[|rs| - 1], rs[..|rs| - 1];
      var p1 := RemoveAt(p, r);
      RemoveAtLength(p, r);
      assert RedundantLoad(p, r);
      RemoveLoadFlowsInside(p, r);
      RemoveAtNoNewPlain(p, r);
      forall i | 0 <= i < |rest|
        ensures RedundantLoad(p1, rest[i])
      {
        assert RedundantLoad(p, rs[i]) && rs[i] < r;
        RedundantBelowRemoval(p, r, rs[i]);
      }
      RemoveAllLoads(p1, rest);
      NoNewPlainTransitive(p, p1, RemoveAll(p, rs));
      if LoadsUndisturbed(p) {
        LoadsUndisturbedChain(p, r);
        RemoveLoadAt(p, r);
        LoadsUndisturbedMonotone(p, p1);
        ImprovesTransitive(p, p1, RemoveAll(p, rs));
      }
    }
  }
}
