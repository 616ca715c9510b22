/** A well-formed program on which Optimize changes the result: the load
    hypothesis of the meaning theorem cannot be dropped. */
module OptimizerCounterexample {
  import opened Bpf
  import opened Interpreter
  import opened Validator
  import opened Simulation
  import opened Removal
  import opened RedundantLoads
  import opened JumpPasses
  import opened ReturnPass
  import opened Optimizer
  import opened LoadExactness

  /** X becomes 1; A is loaded from M[0], X is stored there, A is loaded again
      and returned. */
  function Disturbed(): seq<Instruction> {
    Probe(1, Stmt(LD | MEM | W, 0), Stmt(STX, 0))
  }

  /** The same without the second load. */
  function Shortened(): seq<Instruction> {
    [Stmt(LDX | IMM | W, 1), Stmt(LD | MEM | W, 0), Stmt(STX, 0), Stmt(RET | SRC_A, 0)]
  }

  /** Only the load pass ever changes a straight-line program. */
  lemma StraightLineSettled(p: seq<Instruction>, pass: Pass)
    requires StraightLine(p) && pass != RedundantLoadInstructions
    ensures Settled(pass, p)
  {
    StraightLineFlows(p);
    hide OpValid;
    hide FlowsInside;
    hide Equal;
    if pass == DeadCode {
      forall pc | 0 <= pc < |p| ensures Reachable(p, pc) { StraightLineReachable(p, pc); }
    } else if pass == SmallestSetOfReturns {
      hide Rewritable;
      hide Popularity;
      hide CanFallThrough;
      assert forall pc | 0 <= pc < |p| && IsReturn(p[pc]) :: pc == |p| - 1;
    } else if pass == ConditionalJumps || pass == UnconditionalJumps || pass == JumpsToReturn {
      assert forall pc | 0 <= pc < |p| :: !IsJump(p[pc]);
      assert forall pc | 0 <= pc < |p| :: OffsetsInside(p, pc);
    } else {
      assert forall pc | 0 <= pc < |p| :: !IsJump(p[pc]);
    }
  }

  lemma {:induction false} StraightLineReachable(p: seq<Instruction>, pc: nat)
    requires StraightLine(p) && pc < |p|
    ensures Reachable(p, pc)
  {
    hide OpValid;
    if pc > 0 {
      StraightLineReachable(p, pc - 1);
      ReachableStep(p, pc - 1, pc);
    }
  }

  lemma StraightLineWalk(p: seq<Instruction>, pc: nat)
    requires StraightLine(p) && pc < |p|
    ensures LastModifiedA(p, pc)
            == if pc == 0 then -1 else if ModifiesRegisterA(p[pc - 1]) then pc - 1 else LastModifiedA(p, pc - 1)
  {
    StraightLineFlows(p);
    if pc == 0 {
      assert Predecessors(p, 0) == {} by {
        forall q | q in Predecessors(p, 0) ensures false { SuccessorIsLater(p[q], q, 0); }
      }
    } else {
      OnlyIsUnique(Predecessors(p, pc), pc - 1);
    }
  }

  lemma FirstLoadNotRedundant(p: seq<Instruction>)
    requires StraightLine(p) && |p| > 1 && !ModifiesRegisterA(p[0])
    ensures !RedundantLoad(p, 1)
  {
    StraightLineWalk(p, 0);
    StraightLineWalk(p, 1);
  }

  lemma Shapes()
    ensures Disturbed() == [Stmt(LDX | IMM | W, 1), Stmt(LD | MEM | W, 0), Stmt(STX, 0),
                            Stmt(LD | MEM | W, 0), Stmt(RET | SRC_A, 0)]
    ensures StraightLine(Disturbed()) && StraightLine(Shortened())
    ensures RedundantLoad(Disturbed(), 3) && RemoveAt(Disturbed(), 3) == Shortened()
  {
    BothStraightLine();
    hide StraightLine;
    ProbeIsRedundant(1, Stmt(LD | MEM | W, 0), Stmt(STX, 0));
    hide RedundantLoad;
    hide RemoveAt;
  }

  lemma BothStraightLine()
    ensures StraightLine(Disturbed()) && StraightLine(Shortened())
  {
  }

  lemma RedundantInDisturbed()
    ensures forall pc: nat :: RedundantLoad(Disturbed(), pc) <==> pc == 3
    ensures forall pc: nat :: !RedundantLoad(Shortened(), pc)
  {
    Shapes();
    FirstLoadNotRedundant(Disturbed());
    FirstLoadNotRedundant(Shortened());
    hide LastModifiedA;
    hide Equal;
    hide StraightLine;
  }

  /** The program is well formed, the only change the optimizer can make is to
      drop the load at 3, nothing more changes after that, and the two
      programs return 1 and 0. */
  lemma OptimizeChangesMeaning(input: Input)
    ensures WellFormed(Disturbed()) && WellFormed(Shortened())
    ensures forall pass | pass in PASSES && pass != RedundantLoadInstructions :: Settled(pass, Disturbed())
    ensures forall pc: nat :: RedundantLoad(Disturbed(), pc) <==> pc == 3
    ensures RemoveAll(Disturbed(), [3]) == Shortened()
    ensures forall pass | pass in PASSES :: Settled(pass, Shortened())
    ensures Start(Disturbed(), input).outcome == Returned(1)
    ensures Start(Shortened(), input).outcome == Returned(0)
  {
    hide Settled;
    hide FlowsInside;
    hide WellFormed;
    hide StraightLine;
    hide RedundantLoad;
    hide Run;
    hide RemoveAt;
    var p, q := Disturbed(), Shortened();
    Shapes();
    StraightLineFlows(p);
    StraightLineFlows(q);
    WellFormedIffFlowsInside(p);
    WellFormedIffFlowsInside(q);
    assert RemoveAll(p, [3]) == RemoveAll(q, [3][..0]) == q;
    ShortenedRuns(input);
    forall pass | pass in PASSES && pass != RedundantLoadInstructions
      ensures Settled(pass, p) && Settled(pass, q)
    {
      StraightLineSettled(p, pass);
      StraightLineSettled(q, pass);
    }
    RedundantInDisturbed();
    SettledLoads(q);
  }

  lemma SettledLoads(q: seq<Instruction>)
    requires forall pc: nat :: !RedundantLoad(q, pc)
    ensures Settled(RedundantLoadInstructions, q)
  {
  }

  lemma ShortenedRuns(input: Input)
    ensures Start(Disturbed(), input).outcome == Returned(1)
    ensures Start(Shortened(), input).outcome == Returned(0)
  {
    var l, w := Stmt(LD | MEM | W, 0), Stmt(STX, 0);
    var m1: Machine := ZeroMachine().(x := 1);
    var m2: Machine := m1.(mem := m1.mem[0 := 1]);
    var m3: Machine := m2.(a := 1);
    assert m1.(a := 0) == m1;
    ProbeRuns(1, l, w, input, m1, m2, m3);
  }
}
