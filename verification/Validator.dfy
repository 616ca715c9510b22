/** The checks of Compile (interpreter.go) and what they buy: the control
    flow of every accepted instruction is one of four shapes. */
module Validator {
  import opened Options
  import opened Bpf
  import opened Interpreter

  /** The check Compile makes of the instruction at pc in a program of n
      instructions, in the source's order of tests. */
  function CheckInstruction(i: Instruction, pc: nat, n: nat): Option<ErrorCode> {
    var mode := i.op & LOAD_MODE_MASK;
    var size := i.op & LOAD_SIZE_MASK;
    if i.op & UNUSED_BITS_MASK != 0 then Some(InvalidOpcode)
    else if Class(i) == LD then
      if size == W then
        if mode != IMM && mode != ABS && mode != IND && mode != MEM && mode != LEN then Some(InvalidOpcode)
        else if mode == MEM && i.k >= SCRATCH_MEM_REGISTERS then Some(InvalidRegister)
        else None
      else if size == H || size == B then
        if mode != ABS && mode != IND then Some(InvalidOpcode) else None
      else Some(InvalidOpcode)
    else if Class(i) == LDX then
      if size == W then
        if mode != IMM && mode != MEM && mode != LEN then Some(InvalidOpcode)
        else if mode == MEM && i.k >= SCRATCH_MEM_REGISTERS then Some(InvalidRegister)
        else None
      else if size == B then
        if mode != MSH then Some(InvalidOpcode) else None
      else Some(InvalidOpcode)
    else if Class(i) == ST || Class(i) == STX then
      if i.op & STORE_UNUSED_BITS_MASK != 0 then Some(InvalidOpcode)
      else if i.k >= SCRATCH_MEM_REGISTERS then Some(InvalidRegister)
      else None
    else if Class(i) == ALU then
      var operation := i.op & ALU_MASK;
      if operation == ADD || operation == SUB || operation == MUL || operation == OR || operation == AND
         || operation == LSH || operation == RSH || operation == XOR then None
      else if operation == DIV || operation == MOD then
        if i.op & SRC_ALU_JMP_MASK == SRC_K && i.k == 0 then Some(DivisionByZero) else None
      else if operation == NEG then
        if i.op & SRC_ALU_JMP_MASK != 0 then Some(InvalidOpcode) else None
      else Some(InvalidOpcode)
    else if Class(i) == JMP then
      var jump := i.op & JMP_MASK;
      if jump == JA then
        if i.op & SRC_ALU_JMP_MASK != 0 then Some(InvalidOpcode)
        else if pc + i.k + 1 >= n then Some(InvalidJumpTarget)
        else None
      else if jump == JEQ || jump == JGT || jump == JGE || jump == JSET then
        if pc + i.jt + 1 >= n then Some(InvalidJumpTarget)
        else if pc + i.jf + 1 >= n then Some(InvalidJumpTarget)
        else None
      else Some(InvalidOpcode)
    else if Class(i) == RET then
      if i.op & RET_UNUSED_BITS_MASK != 0 then Some(InvalidOpcode)
      else if i.op & SRC_RET_MASK != SRC_K && i.op & SRC_RET_MASK != SRC_A then Some(InvalidOpcode)
      else None
    else if i.op & MISC_MASK != TAX && i.op & MISC_MASK != TXA then Some(InvalidOpcode)
    else None
  }

  predicate EndsInReturn(p: seq<Instruction>)
    requires |p| > 0
  {
    p[|p| - 1].op == RET | SRC_K || p[|p| - 1].op == RET | SRC_A
  }

  /** What Compile demands of a program, apart from its length limit. */
  ghost predicate WellFormed(p: seq<Instruction>) {
    && |p| > 0
    && EndsInReturn(p)
    && forall pc | 0 <= pc < |p| :: CheckInstruction(p[pc], pc, |p|) == None
  }

  // ---------------------------------------------------------------------
  // The control-flow view: valid opcodes and successors
  // ---------------------------------------------------------------------

  /** The part of the check that does not depend on the position. */
  predicate OpValid(i: Instruction) {
    if IsJump(i) then
      && i.op & UNUSED_BITS_MASK == 0
      && (i.op & JMP_MASK == JA ==> i.op & SRC_ALU_JMP_MASK == 0)
      && (i.op & JMP_MASK == JA || i.op & JMP_MASK == JEQ || i.op & JMP_MASK == JGT
          || i.op & JMP_MASK == JGE || i.op & JMP_MASK == JSET)
    else CheckInstruction(i, 0, 1) == None
  }

  /** The pcs control may go to after instruction i at pc. */
  function Successors(i: Instruction, pc: nat): set<nat> {
    if IsReturn(i) then {}
    else if IsUnconditionalJump(i) then {pc + 1 + i.k}
    else if IsConditionalJump(i) then {pc + 1 + i.jt, pc + 1 + i.jf}
    else {pc + 1}
  }

  /** All successors stay inside a program of n instructions. */
  predicate TargetsWithin(i: Instruction, pc: nat, n: nat) {
    forall s | s in Successors(i, pc) :: s < n
  }

  lemma CheckSplits(i: Instruction, pc: nat, n: nat)
    requires pc < n
    ensures CheckInstruction(i, pc, n) == None <==> OpValid(i) && (IsJump(i) ==> TargetsWithin(i, pc, n))
  {
    if IsConditionalJump(i) {
      assert pc + 1 + i.jt in Successors(i, pc);
      assert pc + 1 + i.jf in Successors(i, pc);
    } else if IsUnconditionalJump(i) {
      assert pc + 1 + i.k in Successors(i, pc);
    }
  }

  lemma ReturnOpcode(i: Instruction)
    requires OpValid(i)
    ensures IsReturn(i) <==> i.op == RET | SRC_K || i.op == RET | SRC_A
  {
  }

  lemma ForwardSuccessor(i: Instruction, pc: nat) returns (s: nat)
    requires !IsReturn(i)
    ensures s in Successors(i, pc) && s > pc
  {
    if IsUnconditionalJump(i) {
      s := pc + 1 + i.k;
    } else if IsConditionalJump(i) {
      s := pc + 1 + i.jt;
    } else {
      s := pc + 1;
    }
  }

  /** Every opcode is valid and no successor leaves the program. */
  ghost predicate FlowsInside(p: seq<Instruction>) {
    && |p| > 0
    && forall pc | 0 <= pc < |p| :: OpValid(p[pc]) && TargetsWithin(p[pc], pc, |p|)
  }

  /** Compile's checks are exactly: no control flow leaves the program. */
  lemma WellFormedIffFlowsInside(p: seq<Instruction>)
    ensures WellFormed(p) <==> FlowsInside(p)
  {
    hide CheckInstruction;
    hide OpValid;
    if |p| > 0 {
      var last := p[|p| - 1];
      forall pc | 0 <= pc < |p|
        ensures CheckInstruction(p[pc], pc, |p|) == None
                <==> OpValid(p[pc]) && (IsJump(p[pc]) ==> TargetsWithin(p[pc], pc, |p|))
        ensures OpValid(p[pc]) ==> (IsReturn(p[pc]) <==> p[pc].op == RET | SRC_K || p[pc].op == RET | SRC_A)
      {
        CheckSplits(p[pc], pc, |p|);
        if OpValid(p[pc]) { ReturnOpcode(p[pc]); }
      }
      if FlowsInside(p) {
        assert OpValid(last) && TargetsWithin(last, |p| - 1, |p|);
        if !IsReturn(last) {
          var s := ForwardSuccessor(last, |p| - 1);
        }
      }
      if WellFormed(p) {
        forall pc | 0 <= pc < |p|
          ensures TargetsWithin(p[pc], pc, |p|)
        {
          if pc == |p| - 1 { assert IsReturn(p[pc]); }
        }
      }
    }
  }

  // ---------------------------------------------------------------------
  // The four shapes of an accepted instruction
  // ---------------------------------------------------------------------

  lemma UnconditionalShape(i: Instruction, m: Machine, input: Input)
    requires OpValid(i) && IsUnconditionalJump(i)
    ensures Step(i, m, input) == Continue(m, i.k)
  {
    assert i.op == JMP | JA;
  }

  lemma ConditionalShape(i: Instruction, m: Machine, input: Input)
    requires OpValid(i) && IsConditionalJump(i)
    ensures Test(i.op, i.k, m).Some?
    ensures Step(i, m, input) == Continue(m, if Test(i.op, i.k, m).value then i.jt else i.jf)
  {
    hide Bitwise;
    assert i.op & SRC_ALU_JMP_MASK == SRC_K || i.op & SRC_ALU_JMP_MASK == SRC_X;
  }

  lemma ReturnShape(i: Instruction, m: Machine, input: Input)
    requires OpValid(i) && IsReturn(i)
    ensures Step(i, m, input).Return?
  {
    ReturnOpcode(i);
  }

  /** The error codes an accepted program can still end with. */
  predicate RuntimeError(code: ErrorCode) {
    code == InvalidLoad || code == DivisionByZero
  }

  lemma PlainShape(i: Instruction, m: Machine, input: Input)
    requires OpValid(i) && !IsJump(i) && !IsReturn(i)
    ensures var r := Step(i, m, input);
            (r.Continue? && r.off == 0) || (r.Fail? && RuntimeError(r.code))
  {
    hide Bitwise;
    hide ShiftLeft;
    hide ShiftRight;
    hide Quotient;
    hide Remainder;
    hide Wrap;
    hide Load8;
    hide Load16;
    hide Load32;
    if Class(i) == ALU {
      assert i.op & SRC_ALU_JMP_MASK == SRC_K || i.op & SRC_ALU_JMP_MASK == SRC_X;
    }
  }

  /** Where control goes after one step is a successor. */
  lemma StepSuccessor(i: Instruction, pc: nat, m: Machine, input: Input)
    requires OpValid(i)
    ensures !Step(i, m, input).Panic?
    ensures Step(i, m, input).Fail? ==> RuntimeError(Step(i, m, input).code)
    ensures Step(i, m, input).Continue? ==> pc + 1 + Step(i, m, input).off in Successors(i, pc)
  {
    hide Step;
    hide OpValid;
    if IsUnconditionalJump(i) {
      UnconditionalShape(i, m, input);
    } else if IsConditionalJump(i) {
      ConditionalShape(i, m, input);
    } else if IsReturn(i) {
      ReturnShape(i, m, input);
    } else {
      PlainShape(i, m, input);
    }
  }

  /** Instructions that Equal identifies do the same in every state. */
  lemma EqualSteps(i: Instruction, j: Instruction, m: Machine, input: Input)
    requires Equal(i, j)
    ensures Step(i, m, input) == Step(j, m, input)
  {
    hide Bitwise;
    hide ShiftLeft;
    hide ShiftRight;
    hide Quotient;
    hide Remainder;
    hide Wrap;
    hide Load8;
    hide Load16;
    hide Load32;
  }

  /** Returns that Equal identifies return the same value from any machine. */
  lemma EqualReturns(i: Instruction, j: Instruction, m: Machine, input: Input)
    requires OpValid(i) && OpValid(j) && IsReturn(i) && Equal(i, j)
    ensures IsReturn(j) && Step(i, m, input) == Step(j, m, input)
    ensures Step(i, m, input).Return?
  {
    ReturnOpcode(i);
  }

  // ---------------------------------------------------------------------
  // What the check means for the machine
  // ---------------------------------------------------------------------

  /** The machine can execute i in every state: it has the opcode, the M register
      exists and the divisor is not a zero constant. */
  ghost predicate Executable(i: Instruction) {
    forall m: Machine, input: Input :: !Step(i, m, input).Panic? && Step(i, m, input) != Fail(InvalidOpcode)
  }

  /** Executing i always ends in r. */
  ghost predicate AlwaysEndsIn(i: Instruction, r: StepResult) {
    forall m: Machine, input: Input :: Step(i, m, input) == r
  }

  /** What is wrong with instruction i at pc in a program of n instructions. */
  ghost predicate Explains(code: ErrorCode, i: Instruction, pc: nat, n: nat) {
    match code
    case InvalidOpcode => AlwaysEndsIn(i, Fail(InvalidOpcode))
    case InvalidRegister => AlwaysEndsIn(i, Panic(IndexOutOfRange))
    case DivisionByZero => AlwaysEndsIn(i, Panic(IntegerDivide))
    case InvalidJumpTarget => Executable(i) && IsJump(i) && !TargetsWithin(i, pc, n)
    case _ => false
  }

  function FaultOf(code: ErrorCode): StepResult {
    match code
    case InvalidRegister => Panic(IndexOutOfRange)
    case DivisionByZero => Panic(IntegerDivide)
    case _ => Fail(code)
  }

  /** Executing an instruction with an invalid opcode or operand. */
  lemma InvalidStep(i: Instruction, pc: nat, n: nat, m: Machine, input: Input)
    requires !OpValid(i)
    ensures var r := CheckInstruction(i, pc, n);
            && (r == Some(InvalidOpcode) || r == Some(InvalidRegister) || r == Some(DivisionByZero))
            && Step(i, m, input) == FaultOf(r.value)
  {
    hide Bitwise;
    hide ShiftLeft;
    hide ShiftRight;
    hide Quotient;
    hide Remainder;
    hide Wrap;
    hide Load8;
    hide Load16;
    hide Load32;
  }

  /** Compile's test of an opcode is exactly that the machine can execute it. */
  lemma OpValidIffExecutable(i: Instruction)
    ensures OpValid(i) <==> Executable(i)
  {
    hide OpValid;
    hide Step;
    hide CheckInstruction;
    if OpValid(i) {
      forall m: Machine, input: Input
        ensures !Step(i, m, input).Panic? && Step(i, m, input) != Fail(InvalidOpcode)
      {
        StepSuccessor(i, 0, m, input);
      }
    } else {
      InvalidStep(i, 0, 1, ZeroMachine(), Input([], BigEndian));
    }
  }

  /** The code Compile reports for an instruction says what executing it would do,
      and an instruction Compile passes can always be executed. */
  lemma CheckMeaning(i: Instruction, pc: nat, n: nat)
    requires pc < n
    ensures match CheckInstruction(i, pc, n)
            case Some(code) => Explains(code, i, pc, n)
            case None => Executable(i) && (IsJump(i) ==> TargetsWithin(i, pc, n))
  {
    CheckSplits(i, pc, n);
    OpValidIffExecutable(i);
    TargetCode(i, pc, n);
    hide Executable;
    hide CheckInstruction;
    hide TargetsWithin;
    if !OpValid(i) {
      forall m: Machine, input: Input
        ensures CheckInstruction(i, pc, n).Some?
        ensures Step(i, m, input) == FaultOf(CheckInstruction(i, pc, n).value)
      {
        InvalidStep(i, pc, n, m, input);
      }
      hide OpValid;
      hide Step;
      InvalidStep(i, pc, n, ZeroMachine(), Input([], BigEndian));
    }
  }

  lemma TargetCode(i: Instruction, pc: nat, n: nat)
    ensures OpValid(i) ==> CheckInstruction(i, pc, n) == None || CheckInstruction(i, pc, n) == Some(InvalidJumpTarget)
    ensures CheckInstruction(i, pc, n) == Some(InvalidJumpTarget) ==> IsJump(i)
  {
  }
}
