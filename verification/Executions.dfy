/** What validation buys at run time, and InstrumentedExec (interpreter.go). */
module Executions {
  import opened Options
  import opened Bpf
  import opened Interpreter
  import opened Validator
  import opened Simulation

  // ---------------------------------------------------------------------
  // Accepted programs halt, without the faults Compile rules out
  // ---------------------------------------------------------------------

  /** The ways a run of an accepted program can end. */
  predicate CleanEnd(o: Outcome) {
    match o
    case Returned(_) => true
    case Failed(code, _) => RuntimeError(code)
    case Panicked => false
  }

  lemma {:induction false} FlowsInsideRuns(p: seq<Instruction>, pc: nat, m: Machine, input: Input)
    requires FlowsInside(p) && pc < |p|
    ensures CleanEnd(Run(p, input, pc, m).outcome)
    ensures 1 <= Run(p, input, pc, m).steps <= |p| - pc
    decreases |p| - pc
  {
    hide Step;
    hide OpValid;
    assert OpValid(p[pc]) && TargetsWithin(p[pc], pc, |p|);
    StepSuccessor(p[pc], pc, m, input);
    match Step(p[pc], m, input) {
      case Continue(m', off) =>
        SuccessorIsLater(p[pc], pc, pc + 1 + off);
        FlowsInsideRuns(p, pc + 1 + off, m', input);
      case _ =>
    }
  }

  /** A program Compile accepts halts within its length on every input. It
      never meets an invalid opcode, never runs off its end, never indexes a
      missing M register and never divides by a zero constant. */
  lemma AcceptedRunsCleanly(p: seq<Instruction>, input: Input)
    requires WellFormed(p)
    ensures CleanEnd(Start(p, input).outcome)
    ensures 1 <= Start(p, input).steps <= |p|
  {
    hide WellFormed;
    hide FlowsInside;
    hide Run;
    WellFormedIffFlowsInside(p);
    assert |p| > 0 by { NonEmpty(p); }
    FlowsInsideRuns(p, 0, ZeroMachine(), input);
  }

  lemma NonEmpty(p: seq<Instruction>)
    requires FlowsInside(p)
    ensures |p| > 0
  {
  }

  // ---------------------------------------------------------------------
  // What a run touches
  // ---------------------------------------------------------------------

  datatype Site = Site(offset: u32, size: nat)

  /** The input bytes an instruction asks for, in the source's switch order. */
  function LoadSite(i: Instruction, m: Machine): Option<Site> {
    if i.op == LD | ABS | W then Some(Site(i.k, 4))
    else if i.op == LD | ABS | H then Some(Site(i.k, 2))
    else if i.op == LD | ABS | B then Some(Site(i.k, 1))
    else if i.op == LD | IND | W then Some(Site(Wrap(m.x + i.k), 4))
    else if i.op == LD | IND | H then Some(Site(Wrap(m.x + i.k), 2))
    else if i.op == LD | IND | B then Some(Site(Wrap(m.x + i.k), 1))
    else if i.op == LDX | MSH | B then Some(Site(i.k, 1))
    else None
  }

  function Range(offset: nat, size: nat): (r: set<nat>)
    ensures forall k :: k in r <==> offset <= k < offset + size
  {
    if size == 0 then {} else Range(offset, size - 1) + {offset + size - 1}
  }

  /** The byte offsets one step reads. */
  function StepReads(i: Instruction, m: Machine, input: Input): set<nat> {
    match LoadSite(i, m)
    case None => {}
    case Some(s) =>
      if s.offset + s.size > |input.bytes| then {}
      else Range(s.offset, s.size)
  }

  /** The pcs a run executes, in order. */
  ghost function Trace(p: seq<Instruction>, input: Input, pc: nat, m: Machine): seq<nat>
    decreases if pc < |p| then |p| - pc else 0
  {
    if pc >= |p| then []
    else
      match Step(p[pc], m, input)
      case Continue(m', off) => [pc] + Trace(p, input, pc + 1 + off, m')
      case _ => [pc]
  }

  /** The input offsets a run reads. */
  ghost function Reads(p: seq<Instruction>, input: Input, pc: nat, m: Machine): set<nat>
    decreases if pc < |p| then |p| - pc else 0
  {
    if pc >= |p| then {}
    else
      match Step(p[pc], m, input)
      case Continue(m', off) => StepReads(p[pc], m, input) + Reads(p, input, pc + 1 + off, m')
      case _ => {}
  }

  /** An instruction never runs twice, so coverage counts the steps. */
  lemma {:induction false} TraceCountsSteps(p: seq<Instruction>, input: Input, pc: nat, m: Machine)
    ensures |Trace(p, input, pc, m)| == Run(p, input, pc, m).steps
    ensures forall i, j | 0 <= i < j < |Trace(p, input, pc, m)| :: Trace(p, input, pc, m)[i] < Trace(p, input, pc, m)[j]
    ensures forall i | 0 <= i < |Trace(p, input, pc, m)| :: pc <= Trace(p, input, pc, m)[i] < |p|
    decreases if pc < |p| then |p| - pc else 0
  {
    hide Step;
    if pc < |p| {
      match Step(p[pc], m, input) {
        case Continue(m', off) => TraceCountsSteps(p, input, pc + 1 + off, m');
        case _ =>
      }
    }
  }

  /** Two inputs that a run cannot tell apart. */
  predicate AgreeOn(input: Input, input': Input, offsets: set<nat>) {
    && |input.bytes| == |input'.bytes|
    && input.order == input'.order
    && forall k | k in offsets && k < |input.bytes| :: input.bytes[k] == input'.bytes[k]
  }

  lemma StepAgrees(i: Instruction, m: Machine, input: Input, input': Input)
    requires AgreeOn(input, input', StepReads(i, m, input))
    ensures Step(i, m, input') == Step(i, m, input)
    ensures StepReads(i, m, input') == StepReads(i, m, input)
  {
    hide Wrap;
    hide Bitwise;
    hide Word32;
    hide Alu;
    match LoadSite(i, m) {
      case None =>
      case Some(s) =>
        if s.offset + s.size <= |input.bytes| {
          forall k | s.offset <= k < s.offset + s.size
            ensures input.bytes[k] == input'.bytes[k]
          {
            assert k in StepReads(i, m, input);
          }
          LoadsAgree(input, input', s);
        }
    }
  }

  lemma LoadsAgree(input: Input, input': Input, s: Site)
    requires |input.bytes| == |input'.bytes| && input.order == input'.order
    requires s.offset + s.size <= |input.bytes|
    requires forall k | s.offset <= k < s.offset + s.size :: input.bytes[k] == input'.bytes[k]
    ensures s.size == 4 ==> Load32(input, s.offset) == Load32(input', s.offset)
    ensures s.size == 2 ==> Load16(input, s.offset) == Load16(input', s.offset)
    ensures s.size == 1 ==> Load8(input, s.offset) == Load8(input', s.offset)
  {
    hide Word32;
  }

  /** The marked bytes are all that matters: any input of the same length that
      agrees on them makes the same run. */
  lemma {:induction false} ReadsDetermineRun(p: seq<Instruction>, input: Input, input': Input, pc: nat, m: Machine)
    requires AgreeOn(input, input', Reads(p, input, pc, m))
    ensures Run(p, input', pc, m) == Run(p, input, pc, m)
    ensures Trace(p, input', pc, m) == Trace(p, input, pc, m)
    ensures Reads(p, input', pc, m) == Reads(p, input, pc, m)
    decreases if pc < |p| then |p| - pc else 0
  {
    hide Step;
    hide StepReads;
    if pc < |p| {
      match Step(p[pc], m, input) {
        case Continue(m', off) =>
          StepAgrees(p[pc], m, input, input');
          ReadsDetermineRun(p, input, input', pc + 1 + off, m');
        case _ =>
          FailedStepAgrees(p[pc], m, input, input');
      }
    }
  }

  /** A step that ends the run depends only on the length of the input. */
  lemma FailedStepAgrees(i: Instruction, m: Machine, input: Input, input': Input)
    requires |input.bytes| == |input'.bytes| && input.order == input'.order
    requires !Step(i, m, input).Continue?
    ensures Step(i, m, input') == Step(i, m, input)
  {
    hide Wrap;
    hide Bitwise;
    hide Word32;
    hide Alu;
  }

  /** The input with one byte changed. */
  function Altered(input: Input, k: nat): Input
    requires k < |input.bytes|
  {
    var b: u8 := if input.bytes[k] == 0xff then 0 else input.bytes[k] + 1;
    input.(bytes := input.bytes[k := b])
  }

  lemma WordInjective(a3: u8, a2: u8, a1: u8, a0: u8, b3: u8, b2: u8, b1: u8, b0: u8)
    requires Word32(a3, a2, a1, a0) == Word32(b3, b2, b1, b0)
    ensures a3 == b3 && a2 == b2 && a1 == b1 && a0 == b0
  {
  }

  lemma LoadDiffers(input: Input, off: u32, size: nat, k: nat)
    requires off <= k < off + size <= |input.bytes|
    ensures size == 4 ==> Load32(Altered(input, k), off) != Load32(input, off)
    ensures size == 2 ==> Load16(Altered(input, k), off) != Load16(input, off)
    ensures size == 1 ==> Load8(Altered(input, k), off) != Load8(input, off)
  {
    hide Word32;
    var b, b' := input.bytes, Altered(input, k).bytes;
    assert b'[k] != b[k];
    if size == 4 && Load32(Altered(input, k), off) == Load32(input, off) {
      if input.order == BigEndian {
        WordInjective(b[off], b[off + 1], b[off + 2], b[off + 3], b'[off], b'[off + 1], b'[off + 2], b'[off + 3]);
      } else {
        WordInjective(b[off + 3], b[off + 2], b[off + 1], b[off], b'[off + 3], b'[off + 2], b'[off + 1], b'[off]);
      }
      assert false;
    }
    if size == 2 && Load16(Altered(input, k), off) == Load16(input, off) {
      if input.order == BigEndian {
        WordInjective(0, 0, b[off], b[off + 1], 0, 0, b'[off], b'[off + 1]);
      } else {
        WordInjective(0, 0, b[off + 1], b[off], 0, 0, b'[off + 1], b'[off]);
      }
      assert false;
    }
  }

  /** No byte is marked without need: another value of any of them gives the
      instruction another result. */
  lemma EveryReadMatters(i: Instruction, m: Machine, input: Input, k: nat)
    requires k in StepReads(i, m, input)
    ensures k < |input.bytes| && Step(i, m, Altered(input, k)) != Step(i, m, input)
  {
    var s := LoadSite(i, m).value;
    LoadDiffers(input, s.offset, s.size, k);
    hide Load32;
    hide Load16;
    hide Wrap;
  }

  // ---------------------------------------------------------------------
  // InstrumentedExec
  // ---------------------------------------------------------------------

  class ExecutionMetrics {
    var returnValue: u32
    const coverage: array<bool>
    const inputAccessed: array<bool>

    constructor (instructions: nat, inputLength: nat)
      ensures fresh(coverage) && fresh(inputAccessed) && coverage != inputAccessed
      ensures coverage.Length == instructions && inputAccessed.Length == inputLength
      ensures forall k | 0 <= k < instructions :: !coverage[k]
      ensures forall k | 0 <= k < inputLength :: !inputAccessed[k]
      ensures returnValue == 0
    {
      returnValue := 0;
      coverage := new bool[instructions](_ => false);
      inputAccessed := new bool[inputLength](_ => false);
    }

    /** Marks exactly the given bytes; the caller has checked the range, so the
        panic of the source is a precondition. */
    method MarkInputRead(offset: nat, bytesRead: nat)
      requires offset + bytesRead <= inputAccessed.Length
      modifies inputAccessed
      ensures forall k | 0 <= k < inputAccessed.Length ::
                inputAccessed[k] <==> old(inputAccessed[k]) || offset <= k < offset + bytesRead
    {
      for i := 0 to bytesRead
        invariant forall k | 0 <= k < inputAccessed.Length ::
                    inputAccessed[k] <==> old(inputAccessed[k]) || offset <= k < offset + i
      {
        inputAccessed[offset + i] := true;
      }
    }
  }

  lemma ReadsInBounds(i: Instruction, m: Machine, input: Input)
    requires Step(i, m, input).Continue? && LoadSite(i, m).Some?
    ensures var s := LoadSite(i, m).value;
            && s.offset + s.size <= |input.bytes|
            && StepReads(i, m, input) == Range(s.offset, s.size)
  {
    hide Wrap;
    hide Bitwise;
    hide Word32;
    hide Alu;
  }

  /** Agrees with Exec; the coverage is exactly the set of executed pcs and
      the marked bytes are exactly those the run reads. */
  method InstrumentedExec(p: seq<Instruction>, input: Input) returns (ret: ExecutionMetrics, r: Outcome)
    ensures r == Start(p, input).outcome
    ensures r.Returned? ==> ret.returnValue == r.value
    ensures ret.coverage.Length == |p| && ret.inputAccessed.Length == |input.bytes|
    ensures forall k | 0 <= k < |p| :: ret.coverage[k] <==> k in Trace(p, input, 0, ZeroMachine())
    ensures forall k | 0 <= k < |input.bytes| :: ret.inputAccessed[k] <==> k in Reads(p, input, 0, ZeroMachine())
  {
    hide Step;
    hide StepReads;
    hide LoadSite;
    ret := new ExecutionMetrics(|p|, |input.bytes|);
    var m := ZeroMachine();
    var pc := 0;
    ghost var trace, accessed := Trace(p, input, 0, m), Reads(p, input, 0, m);
    while pc < |p|
      invariant 0 <= pc
      invariant Run(p, input, pc, m).outcome == Start(p, input).outcome
      invariant fresh(ret) && fresh(ret.coverage) && fresh(ret.inputAccessed) && ret.coverage != ret.inputAccessed
      invariant ret.coverage.Length == |p| && ret.inputAccessed.Length == |input.bytes|
      invariant forall k | 0 <= k < |p| :: k in trace <==> ret.coverage[k] || k in Trace(p, input, pc, m)
      invariant forall k | 0 <= k < |input.bytes| :: k in accessed <==>
        ret.inputAccessed[k] || k in Reads(p, input, pc, m)
      decreases |p| - pc
    {
      ret.coverage[pc] := true;
      match Step(p[pc], m, input) {
        case Continue(m', off) =>
          match LoadSite(p[pc], m) {
            case Some(s) =>
              ReadsInBounds(p[pc], m, input);
              ret.MarkInputRead(s.offset, s.size);
            case None =>
              NoReads(p[pc], m, input);
          }
          m, pc := m', pc + off + 1;
        case Return(v) =>
          ret.returnValue := v;
          return ret, Returned(v);
        case Fail(code) =>
          return ret, Failed(code, pc);
        case Panic(_) =>
          return ret, Panicked;
      }
    }
    return ret, Failed(InvalidEndOfProgram, pc);
  }

  lemma NoReads(i: Instruction, m: Machine, input: Input)
    requires LoadSite(i, m).None?
    ensures StepReads(i, m, input) == {}
  {
  }
}
