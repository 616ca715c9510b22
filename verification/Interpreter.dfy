/** The BPF virtual machine of interpreter.go and the input loads of
    input_bytes.go.

    Step is the body of the big switch; Run is the meaning of a whole program
    from a given pc; Exec is the loop. Faults that Go turns into a run-time
    panic (an M register that does not exist, division by a zero constant)
    are a Panic result, so that their absence can be stated. */
module Interpreter {
  import opened Options
  import opened Bpf

  datatype Endianness = BigEndian | LittleEndian

  /** The input bytes with the byte order Exec is instantiated at;
      NativeEndian is one of the two. */
  datatype Input = Input(bytes: seq<u8>, order: Endianness)

  datatype ErrorCode =
    | DivisionByZero
    | InvalidEndOfProgram
    | InvalidInstructionCount
    | InvalidJumpTarget
    | InvalidLoad
    | InvalidOpcode
    | InvalidRegister

  // ---------------------------------------------------------------------
  // Loads
  // ---------------------------------------------------------------------

  function Word32(b3: int, b2: int, b1: int, b0: int): u32
    requires 0 <= b3 < 0x100 && 0 <= b2 < 0x100 && 0 <= b1 < 0x100 && 0 <= b0 < 0x100
  {
    b3 * 0x100_0000 + b2 * 0x1_0000 + b1 * 0x100 + b0
  }

  function Load32(input: Input, off: u32): Option<u32> {
    var b := input.bytes;
    if off + 4 > |b| then None
    else if input.order == BigEndian then Some(Word32(b[off], b[off + 1], b[off + 2], b[off + 3]))
    else Some(Word32(b[off + 3], b[off + 2], b[off + 1], b[off]))
  }

  function Load16(input: Input, off: u32): Option<u32> {
    var b := input.bytes;
    if off + 2 > |b| then None
    else if input.order == BigEndian then Some(Word32(0, 0, b[off], b[off + 1]))
    else Some(Word32(0, 0, b[off + 1], b[off]))
  }

  function Load8(input: Input, off: u32): Option<u32> {
    if off + 1 > |input.bytes| then None else Some(input.bytes[off])
  }

  // ---------------------------------------------------------------------
  // Arithmetic on 32-bit words
  // ---------------------------------------------------------------------

  function Wrap(x: int): u32 {
    x % 0x1_0000_0000
  }

  function Power2(n: nat): (r: nat)
    ensures r > 0
  {
    if n == 0 then 1 else 2 * Power2(n - 1)
  }

  datatype BitOp = BitAnd | BitOr | BitXor

  function OnBit(o: BitOp, a: int, b: int): (r: int)
    ensures 0 <= r <= 1
  {
    match o
    case BitAnd => if a % 2 == 1 && b % 2 == 1 then 1 else 0
    case BitOr => if a % 2 == 1 || b % 2 == 1 then 1 else 0
    case BitXor => if a % 2 != b % 2 then 1 else 0
  }

  /** A bitwise operation on the low n bits. */
  function OnBits(o: BitOp, n: nat, a: int, b: int): (r: int)
    ensures 0 <= r < Power2(n)
  {
    if n == 0 then 0 else OnBit(o, a, b) + 2 * OnBits(o, n - 1, a / 2, b / 2)
  }

  function Bitwise(o: BitOp, a: u32, b: u32): u32 {
    assert Power2(8) == 0x100;
    assert Power2(16) == 0x1_0000;
    assert Power2(24) == 0x100_0000;
    assert Power2(32) == 0x1_0000_0000;
    OnBits(o, 32, a, b)
  }

  function Quotient(a: u32, b: int): u32
    requires b > 0
  {
    QuotientBound(a, b);
    a / b
  }

  lemma ProductBound(b: int, q: int)
    requires b >= 1 && q >= 0
    ensures b * q >= q
  {
    assert (b - 1) * q >= 0;
  }

  lemma QuotientBound(a: int, b: int)
    requires a >= 0 && b > 0
    ensures 0 <= a / b <= a
  {
    var q := a / b;
    assert a == b * q + a % b;
    assert q >= 0;
    ProductBound(b, q);
  }

  function Remainder(a: u32, b: u32): u32
    requires b != 0
  {
    a % b
  }

  function ShiftLeft(a: u32, n: u32): u32 {
    if n >= 32 then 0 else Wrap(a * Power2(n))
  }

  function ShiftRight(a: u32, n: u32): u32 {
    if n >= 32 then 0 else Quotient(a, Power2(n))
  }

  // ---------------------------------------------------------------------
  // One instruction
  // ---------------------------------------------------------------------

  datatype Registers = Registers(a: u32, x: u32, mem: seq<u32>)

  type Machine = m: Registers | |m.mem| == SCRATCH_MEM_REGISTERS
    witness Registers(0, 0, seq(SCRATCH_MEM_REGISTERS, _ => 0))

  function ZeroMachine(): Machine {
    Registers(0, 0, seq(SCRATCH_MEM_REGISTERS, _ => 0))
  }

  /** The run-time panics of Go that an instruction could cause. */
  datatype Fault = IndexOutOfRange | IntegerDivide

  /** What one instruction does: go on at `off` instructions past the next
      one, return, or fail. */
  datatype StepResult =
    | Continue(machine: Machine, off: nat)
    | Return(value: u32)
    | Fail(code: ErrorCode)
    | Panic(fault: Fault)

  function IntoA(m: Machine, v: Option<u32>): StepResult {
    match v
    case None => Fail(InvalidLoad)
    case Some(w) => Continue(m.(a := w), 0)
  }

  function StepLoad(i: Instruction, m: Machine, input: Input): StepResult {
    if i.op == LD | IMM | W then Continue(m.(a := i.k), 0)
    else if i.op == LD | ABS | W then IntoA(m, Load32(input, i.k))
    else if i.op == LD | ABS | H then IntoA(m, Load16(input, i.k))
    else if i.op == LD | ABS | B then IntoA(m, Load8(input, i.k))
    else if i.op == LD | IND | W then IntoA(m, Load32(input, Wrap(m.x + i.k)))
    else if i.op == LD | IND | H then IntoA(m, Load16(input, Wrap(m.x + i.k)))
    else if i.op == LD | IND | B then IntoA(m, Load8(input, Wrap(m.x + i.k)))
    else if i.op == LD | MEM | W then
      if i.k >= SCRATCH_MEM_REGISTERS then Panic(IndexOutOfRange) else Continue(m.(a := m.mem[i.k]), 0)
    else if i.op == LD | LEN | W then Continue(m.(a := Wrap(|input.bytes|)), 0)
    else Fail(InvalidOpcode)
  }

  function StepLoadX(i: Instruction, m: Machine, input: Input): StepResult {
    if i.op == LDX | IMM | W then Continue(m.(x := i.k), 0)
    else if i.op == LDX | MEM | W then
      if i.k >= SCRATCH_MEM_REGISTERS then Panic(IndexOutOfRange) else Continue(m.(x := m.mem[i.k]), 0)
    else if i.op == LDX | LEN | W then Continue(m.(x := Wrap(|input.bytes|)), 0)
    else if i.op == LDX | MSH | B then
      match Load8(input, i.k)
      case None => Fail(InvalidLoad)
      case Some(v) => Continue(m.(x := 4 * (v % 16)), 0)
    else Fail(InvalidOpcode)
  }

  function StepStore(i: Instruction, m: Machine): StepResult {
    if i.op == ST then
      if i.k >= SCRATCH_MEM_REGISTERS then Panic(IndexOutOfRange) else Continue(m.(mem := m.mem[i.k := m.a]), 0)
    else if i.op == STX then
      if i.k >= SCRATCH_MEM_REGISTERS then Panic(IndexOutOfRange) else Continue(m.(mem := m.mem[i.k := m.x]), 0)
    else Fail(InvalidOpcode)
  }

  datatype AluResult = Word(word: u32) | Trap(trap: ErrorCode) | Crash

  /** The ALU on A and one operand; `byX` tells whether the operand is X, whose
      being zero the program cannot rule out. */
  function Alu(operation: bv16, a: u32, src: u32, byX: bool): AluResult {
    if operation == ADD then Word(Wrap(a + src))
    else if operation == SUB then Word(Wrap(a - src))
    else if operation == MUL then Word(Wrap(a * src))
    else if operation == DIV then
      if src == 0 then (if byX then Trap(DivisionByZero) else Crash) else Word(Quotient(a, src))
    else if operation == OR then Word(Bitwise(BitOr, a, src))
    else if operation == AND then Word(Bitwise(BitAnd, a, src))
    else if operation == LSH then Word(ShiftLeft(a, src))
    else if operation == RSH then Word(ShiftRight(a, src))
    else if operation == MOD then
      if src == 0 then (if byX then Trap(DivisionByZero) else Crash) else Word(Remainder(a, src))
    else if operation == XOR then Word(Bitwise(BitXor, a, src))
    else Trap(InvalidOpcode)
  }

  function StepAlu(i: Instruction, m: Machine): StepResult {
    if i.op & UNUSED_BITS_MASK != 0 then Fail(InvalidOpcode)
    else if i.op == ALU | NEG then Continue(m.(a := Wrap(0 - m.a)), 0)
    else
      var byX := i.op & SRC_ALU_JMP_MASK == SRC_X;
      match Alu(i.op & ALU_MASK, m.a, if byX then m.x else i.k, byX)
      case Word(w) => Continue(m.(a := w), 0)
      case Trap(code) => Fail(code)
      case Crash => Panic(IntegerDivide)
  }

  /** The condition of a conditional jump; None for an opcode the machine does
      not have. It does not look at the jump offsets. */
  function Test(op: bv16, k: u32, m: Machine): Option<bool> {
    if op == JMP | JEQ | SRC_K then Some(m.a == k)
    else if op == JMP | JEQ | SRC_X then Some(m.a == m.x)
    else if op == JMP | JGT | SRC_K then Some(m.a > k)
    else if op == JMP | JGT | SRC_X then Some(m.a > m.x)
    else if op == JMP | JGE | SRC_K then Some(m.a >= k)
    else if op == JMP | JGE | SRC_X then Some(m.a >= m.x)
    else if op == JMP | JSET | SRC_K then Some(Bitwise(BitAnd, m.a, k) != 0)
    else if op == JMP | JSET | SRC_X then Some(Bitwise(BitAnd, m.a, m.x) != 0)
    else None
  }

  function StepJump(i: Instruction, m: Machine): StepResult {
    if i.op == JMP | JA then Continue(m, i.k)
    else
      match Test(i.op, i.k, m)
      case None => Fail(InvalidOpcode)
      case Some(taken) => Continue(m, if taken then i.jt else i.jf)
  }

  function StepReturn(i: Instruction, m: Machine): StepResult {
    if i.op == RET | SRC_K then Return(i.k)
    else if i.op == RET | SRC_A then Return(m.a)
    else Fail(InvalidOpcode)
  }

  function StepMisc(i: Instruction, m: Machine): StepResult {
    if i.op == MISC | TAX then Continue(m.(a := m.x), 0)
    else if i.op == MISC | TXA then Continue(m.(x := m.a), 0)
    else Fail(InvalidOpcode)
  }

  function Step(i: Instruction, m: Machine, input: Input): StepResult {
    if Class(i) == LD then StepLoad(i, m, input)
    else if Class(i) == LDX then StepLoadX(i, m, input)
    else if Class(i) == ST || Class(i) == STX then StepStore(i, m)
    else if Class(i) == ALU then StepAlu(i, m)
    else if Class(i) == JMP then StepJump(i, m)
    else if Class(i) == RET then StepReturn(i, m)
    else StepMisc(i, m)
  }

  // ---------------------------------------------------------------------
  // Whole runs
  // ---------------------------------------------------------------------

  datatype Outcome = Returned(value: u32) | Failed(code: ErrorCode, pc: nat) | Panicked

  /** How a run ends and how many instructions it executes. */
  datatype Execution = Execution(outcome: Outcome, steps: nat)

  function Run(p: seq<Instruction>, input: Input, pc: nat, m: Machine): Execution
    decreases if pc < |p| then |p| - pc else 0
  {
    if pc >= |p| then Execution(Failed(InvalidEndOfProgram, pc), 0)
    else
      match Step(p[pc], m, input)
      case Continue(m', off) =>
        var rest := Run(p, input, pc + 1 + off, m');
        Execution(rest.outcome, rest.steps + 1)
      case Return(v) => Execution(Returned(v), 1)
      case Fail(code) => Execution(Failed(code, pc), 1)
      case Panic(_) => Execution(Panicked, 1)
  }

  function Start(p: seq<Instruction>, input: Input): Execution {
    Run(p, input, 0, ZeroMachine())
  }

  method Exec(p: seq<Instruction>, input: Input) returns (r: Outcome)
    ensures r == Start(p, input).outcome
  {
    hide Step;
    var m := ZeroMachine();
    var pc := 0;
    while pc < |p|
      invariant 0 <= pc
      invariant Run(p, input, pc, m).outcome == Start(p, input).outcome
      decreases |p| - pc
    {
      match Step(p[pc], m, input) {
        case Continue(m', off) => m, pc := m', pc + off + 1;
        case Return(v) => return Returned(v);
        case Fail(code) => return Failed(code, pc);
        case Panic(_) => return Panicked;
      }
    }
    return Failed(InvalidEndOfProgram, pc);
  }
}
