/** Classic BPF instructions: the opcode layout and the classifiers of bpf.go.

    An opcode is a bit vector, as in the source; the jump offsets and the
    immediate operand are integers with the source's widths. */
module Bpf {

  const MAX_INSTRUCTIONS := 4096
  const SCRATCH_MEM_REGISTERS := 16

  type u8 = x: int | 0 <= x < 0x100
  type u32 = x: int | 0 <= x < 0x1_0000_0000

  const MAX_U8 := 0xff
  const MAX_U32 := 0xffff_ffff

  // Instruction class, bits 0-2.
  const LD: bv16 := 0x00
  const LDX: bv16 := 0x01
  const ST: bv16 := 0x02
  const STX: bv16 := 0x03
  const ALU: bv16 := 0x04
  const JMP: bv16 := 0x05
  const RET: bv16 := 0x06
  const MISC: bv16 := 0x07
  const CLASS_MASK: bv16 := 0x07

  // Size of a load, bits 3-4.
  const W: bv16 := 0x00
  const H: bv16 := 0x08
  const B: bv16 := 0x10
  const LOAD_SIZE_MASK: bv16 := 0x18

  // Source of a load, bits 5-7.
  const IMM: bv16 := 0x00
  const ABS: bv16 := 0x20
  const IND: bv16 := 0x40
  const MEM: bv16 := 0x60
  const LEN: bv16 := 0x80
  const MSH: bv16 := 0xa0
  const LOAD_MODE_MASK: bv16 := 0xe0

  // Source operand of arithmetic, jump and return instructions.
  const SRC_K: bv16 := 0x00
  const SRC_X: bv16 := 0x08
  const SRC_A: bv16 := 0x10
  const OPERAND_MASK: bv16 := 0x18
  const SRC_ALU_JMP_MASK: bv16 := 0x08
  const SRC_RET_MASK: bv16 := 0x18

  // Arithmetic, bits 4-7.
  const ADD: bv16 := 0x00
  const SUB: bv16 := 0x10
  const MUL: bv16 := 0x20
  const DIV: bv16 := 0x30
  const OR: bv16 := 0x40
  const AND: bv16 := 0x50
  const LSH: bv16 := 0x60
  const RSH: bv16 := 0x70
  const NEG: bv16 := 0x80
  const MOD: bv16 := 0x90
  const XOR: bv16 := 0xa0
  const ALU_MASK: bv16 := 0xf0

  // Jumps, bits 4-7.
  const JA: bv16 := 0x00
  const JEQ: bv16 := 0x10
  const JGT: bv16 := 0x20
  const JGE: bv16 := 0x30
  const JSET: bv16 := 0x40
  const JMP_MASK: bv16 := 0xf0

  // Register moves, bits 3-7.
  const TAX: bv16 := 0x00
  const TXA: bv16 := 0x80
  const MISC_MASK: bv16 := 0xf8

  // Bits that must be zero.
  const UNUSED_BITS_MASK: bv16 := 0xff00
  const STORE_UNUSED_BITS_MASK: bv16 := 0xf8
  const RET_UNUSED_BITS_MASK: bv16 := 0xe0

  datatype Instruction = Instruction(op: bv16, jt: u8, jf: u8, k: u32)

  function Stmt(code: bv16, k: u32): Instruction {
    Instruction(code, 0, 0, k)
  }

  function Jump(code: bv16, k: u32, jt: u8, jf: u8): Instruction {
    Instruction(code, jt, jf, k)
  }

  function Class(i: Instruction): bv16 {
    i.op & CLASS_MASK
  }

  predicate IsReturn(i: Instruction) {
    Class(i) == RET
  }

  predicate IsJump(i: Instruction) {
    Class(i) == JMP
  }

  predicate IsConditionalJump(i: Instruction) {
    IsJump(i) && i.op & JMP_MASK != JA
  }

  predicate IsUnconditionalJump(i: Instruction) {
    IsJump(i) && i.op & JMP_MASK == JA
  }

  predicate ModifiesRegisterA(i: Instruction) {
    || Class(i) == LD
    || Class(i) == ALU
    || (Class(i) == MISC && i.op == MISC | TAX)
  }

  /** The equivalence of Instruction.Equal: fields that the opcode ignores are
      not compared. */
  predicate Equal(i: Instruction, j: Instruction) {
    if i.op != j.op then false
    else if Class(i) == LD || Class(i) == LDX then
      i.op & LOAD_MODE_MASK == LEN || i.k == j.k
    else if Class(i) == ST || Class(i) == STX then
      i.k == j.k
    else if Class(i) == ALU then
      if i.op == ALU | NEG then true
      else if i.op & OPERAND_MASK == SRC_X then true
      else if i.op & OPERAND_MASK == SRC_K then i.k == j.k
      else i == j
    else if Class(i) == RET then
      if i.op == RET | SRC_A then true
      else if i.op == RET | SRC_K then i.k == j.k
      else i == j
    else if Class(i) == JMP then
      if IsUnconditionalJump(i) then i.k == j.k
      else if i.op & OPERAND_MASK == SRC_X then i.jt == j.jt && i.jf == j.jf
      else i == j
    else if i.op == MISC | TAX || i.op == MISC | TXA then true
    else i == j
  }

  datatype JumpType = JumpDirect | JumpTrue | JumpFalse

  datatype JumpOffset = JumpOffset(jumpType: JumpType, offset: u32)

  function JumpOffsets(i: Instruction): seq<JumpOffset> {
    if !IsJump(i) then []
    else if IsConditionalJump(i) then [JumpOffset(JumpTrue, i.jt), JumpOffset(JumpFalse, i.jf)]
    else [JumpOffset(JumpDirect, i.k)]
  }
}
