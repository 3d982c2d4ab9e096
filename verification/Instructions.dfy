/** The opcode table of the VM, grouped by what an opcode does. */
module Instructions {
  import opened Common

  const OP_0: byte := 0x00
  const OP_1NEGATE: byte := 0x4f
  const OP_1: byte := 0x51
  const OP_VERIF: byte := 0x65
  const OP_VERNOTIF: byte := 0x66
  const OP_CHECKSIGFROMSTACK: byte := 0xcc

  datatype StackOp =
    | Drop(n: int) | Dup(n: int) | Over(n: int) | Rot(n: int) | Swap(n: int)
    | IfDup | Depth | Nip | Pick | Roll | TuckTop | Size

  datatype SpliceOp = Cat | Substr | Left | Right | Invert | ByteAnd | ByteOr | ByteXor | Equal | ReverseBytes

  datatype UnaryOp = Inc | Dec | Double | Halve | Negate | AbsValue | Not | NotZero

  datatype BinaryOp =
    | Add | Sub | Mul | Div | Mod | BoolAnd | BoolOr
    | NumEqual | NumNotEqual | LessThan | GreaterThan | LessOrEqual | GreaterOrEqual
    | Min | Max

  datatype HashOp = Ripemd160 | Sha1 | Sha256 | Hash160 | Hash256 | Keccak256 | Sha3

  datatype InspectOp =
    | InputOutpoint | InputValue | InputScript | InputSequence | CurrentIndex
    | OutputValue | OutputScript | TxVersion | TxLockTime | NumInputs | NumOutputs | TxWeight

  datatype Instr =
    | PushEmpty
    | PushData
    | PushNum(n: int)
    | Nop
    | If(branch: bool)
    | Else
    | EndIf
    | Verify
    | Return
    | ToAltStack
    | FromAltStack
    | StackInstr(sop: StackOp)
    | SpliceInstr(bop: SpliceOp)
    | EqualVerify
    | UnaryInstr(uop: UnaryOp)
    | BinaryInstr(nop: BinaryOp)
    | NumEqualVerify
    | Within
    | ShiftLeft
    | ShiftRight
    | Num2Bin
    | Bin2Num
    | HashInstr(hop: HashOp)
    | Digest
    | CodeSeparator
    | InspectInstr(iop: InspectOp)
    | InspectPacket
    | Sighash
    | CheckSigFromStack
    | Reserved
    | UpgradableNop
    | Other

  /** The row of the opcode table. Signature checks over the script's own digest,
      curve arithmetic, MODEXP, hash midstates, Merkle branches, lock times, asset
      introspection, TXID, and the packets, script hashes and witness hashes of
      inputs are `Other`. */
  function InstrOf(op: byte): Instr {
    if op == 0 then PushEmpty
    else if op <= 0x4e then PushData
    else if op == 0x4f then PushNum(-1)
    else if 0x51 <= op <= 0x60 then PushNum(op as int - 0x50)
    else if op <= 0x6a then ControlInstr(op)
    else if op <= 0x7d then StackInstrOf(op)
    else if op <= 0x8a then SpliceInstrOf(op)
    else if op <= 0xa5 then NumericInstrOf(op)
    else if op <= 0xb9 then HashInstrOf(op)
    else LateInstrOf(op)
  }

  function ControlInstr(op: byte): Instr {
    if op == 0x61 then Nop
    else if op == 0x63 then If(true)
    else if op == 0x64 then If(false)
    else if op == 0x67 then Else
    else if op == 0x68 then EndIf
    else if op == 0x69 then Verify
    else if op == 0x6a then Return
    else Reserved
  }

  function StackInstrOf(op: byte): Instr {
    if op == 0x6b then ToAltStack
    else if op == 0x6c then FromAltStack
    else if op == 0x6d then StackInstr(Drop(2))
    else if op == 0x6e then StackInstr(Dup(2))
    else if op == 0x6f then StackInstr(Dup(3))
    else if op == 0x70 then StackInstr(Over(2))
    else if op == 0x71 then StackInstr(Rot(2))
    else if op == 0x72 then StackInstr(Swap(2))
    else if op == 0x73 then StackInstr(IfDup)
    else if op == 0x74 then StackInstr(Depth)
    else if op == 0x75 then StackInstr(Drop(1))
    else if op == 0x76 then StackInstr(Dup(1))
    else if op == 0x77 then StackInstr(Nip)
    else if op == 0x78 then StackInstr(Over(1))
    else if op == 0x79 then StackInstr(Pick)
    else if op == 0x7a then StackInstr(Roll)
    else if op == 0x7b then StackInstr(Rot(1))
    else if op == 0x7c then StackInstr(Swap(1))
    else StackInstr(TuckTop)
  }

  function SpliceInstrOf(op: byte): Instr {
    if op == 0x7e then SpliceInstr(Cat)
    else if op == 0x7f then SpliceInstr(Substr)
    else if op == 0x80 then SpliceInstr(Left)
    else if op == 0x81 then SpliceInstr(Right)
    else if op == 0x82 then StackInstr(Size)
    else if op == 0x83 then SpliceInstr(Invert)
    else if op == 0x84 then SpliceInstr(ByteAnd)
    else if op == 0x85 then SpliceInstr(ByteOr)
    else if op == 0x86 then SpliceInstr(ByteXor)
    else if op == 0x87 then SpliceInstr(Equal)
    else if op == 0x88 then EqualVerify
    else Reserved
  }

  function NumericInstrOf(op: byte): Instr {
    if op == 0x8b then UnaryInstr(Inc)
    else if op == 0x8c then UnaryInstr(Dec)
    else if op == 0x8d then UnaryInstr(Double)
    else if op == 0x8e then UnaryInstr(Halve)
    else if op == 0x8f then UnaryInstr(Negate)
    else if op == 0x90 then UnaryInstr(AbsValue)
    else if op == 0x91 then UnaryInstr(Not)
    else if op == 0x92 then UnaryInstr(NotZero)
    else if op == 0x93 then BinaryInstr(Add)
    else if op == 0x94 then BinaryInstr(Sub)
    else if op == 0x95 then BinaryInstr(Mul)
    else if op == 0x96 then BinaryInstr(Div)
    else if op == 0x97 then BinaryInstr(Mod)
    else if op == 0x98 then ShiftLeft
    else if op == 0x99 then ShiftRight
    else if op == 0x9a then BinaryInstr(BoolAnd)
    else if op == 0x9b then BinaryInstr(BoolOr)
    else if op == 0x9c then BinaryInstr(NumEqual)
    else if op == 0x9d then NumEqualVerify
    else if op == 0x9e then BinaryInstr(NumNotEqual)
    else if op == 0x9f then BinaryInstr(LessThan)
    else if op == 0xa0 then BinaryInstr(GreaterThan)
    else if op == 0xa1 then BinaryInstr(LessOrEqual)
    else if op == 0xa2 then BinaryInstr(GreaterOrEqual)
    else if op == 0xa3 then BinaryInstr(Min)
    else if op == 0xa4 then BinaryInstr(Max)
    else Within
  }

  function HashInstrOf(op: byte): Instr {
    if op == 0xa6 then HashInstr(Ripemd160)
    else if op == 0xa7 then HashInstr(Sha1)
    else if op == 0xa8 then HashInstr(Sha256)
    else if op == 0xa9 then HashInstr(Hash160)
    else if op == 0xaa then HashInstr(Hash256)
    else if op == 0xab then CodeSeparator
    else if op == 0xb0 || 0xb4 <= op <= 0xb9 then UpgradableNop
    else Other
  }

  function LateInstrOf(op: byte): Instr {
    if op == 0xc3 then Digest
    else if op == 0xc7 then InspectInstr(InputOutpoint)
    else if op == 0xc9 then InspectInstr(InputValue)
    else if op == 0xca then InspectInstr(InputScript)
    else if op == 0xcb then InspectInstr(InputSequence)
    else if op == 0xcc then CheckSigFromStack
    else if op == 0xcd then InspectInstr(CurrentIndex)
    else if op == 0xcf then InspectInstr(OutputValue)
    else if op == 0xd1 then InspectInstr(OutputScript)
    else if op == 0xd2 then InspectInstr(TxVersion)
    else if op == 0xd3 then InspectInstr(TxLockTime)
    else if op == 0xd4 then InspectInstr(NumInputs)
    else if op == 0xd5 then InspectInstr(NumOutputs)
    else if op == 0xd6 then InspectInstr(TxWeight)
    else if op == 0xd7 then Num2Bin
    else if op == 0xd8 then Bin2Num
    else if op == 0xd9 then SpliceInstr(ReverseBytes)
    else if op == 0xf4 then InspectPacket
    else if op == 0xf6 then Sighash
    else if 0xbb <= op <= 0xc2 || op == 0xd0 || 0xdb <= op <= 0xdf || op >= 0xf7 then Reserved
    else Other
  }

  predicate Conditional(op: byte) {
    0x63 <= op <= 0x64 || 0x67 <= op <= 0x68
  }
}
