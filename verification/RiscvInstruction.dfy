/** RV32I instruction words as the simulator reads them: bit fields, instruction
    types, the immediate block, the ALU, the comparator and the decode table.
    Machine words are the integers below 2^32. */
module RiscvInstruction {
  import opened Wrappers

  const MODULUS := 0x1_0000_0000

  type Word = w: int | 0 <= w < MODULUS

  type RegNum = r: int | 0 <= r < 32

  /** 32-bit wrap-around addition and subtraction. */
  function Plus(a: Word, b: Word): Word { (a + b) % MODULUS }

  function Minus(a: Word, b: Word): Word { (a - b) % MODULUS }

  /** Every exception a tick of the simulator can end with. */
  datatype Fault = Unsupported | Ebreak | InvalidFunct | Misaligned | OutOfSection | BadDataAddress | BadLoadMode

  datatype Result<+T> = Ok(value: T) | Err(fault: Fault) {
    predicate IsFailure() { Err? }
    function PropagateFailure<U>(): Result<U>
      requires Err?
    {
      Err(fault)
    }
    function Extract(): T
      requires Ok?
    {
      value
    }
  }

  datatype InstrType = Unknown | RType | IType | SType | BType | UType | JType
  datatype AluOp = AluNop | Add | Sub | Sll | Slt | Sltu | Xor | Srl | Sra | Or | And
  datatype CmpOp = CmpNop | Eq | Ne | Lt | Ge | Ltu | Geu

  function Opcode(w: Word): nat { w % 0x80 }

  function Rd(w: Word): RegNum { w / 0x80 % 32 }

  function Funct3(w: Word): (r: nat)
    ensures r < 8
  {
    w / 0x1000 % 8
  }

  function Rs1(w: Word): RegNum { w / 0x8000 % 32 }

  function Rs2(w: Word): RegNum { w / 0x10_0000 % 32 }

  function Funct7(w: Word): nat { w / 0x200_0000 }

  const OP := 0x33
  const OP_IMM := 0x13
  const LOAD := 0x03
  const STORE := 0x23
  const BRANCH := 0x63
  const JAL := 0x6f
  const JALR := 0x67
  const LUI := 0x37
  const AUIPC := 0x17
  const SYSTEM := 0x73
  const FENCE := 0x0f

  function TypeOf(opcode: nat): InstrType {
    if opcode == OP then RType
    else if opcode == STORE then SType
    else if opcode == BRANCH then BType
    else if opcode == LOAD || opcode == OP_IMM || opcode == SYSTEM || opcode == JALR then IType
    else if opcode == LUI || opcode == AUIPC then UType
    else if opcode == JAL then JType
    else Unknown
  }

  predicate HasRs1(t: InstrType) { !t.UType? && !t.JType? }

  predicate HasRs2(t: InstrType) { t.RType? || t.IType? || t.SType? || t.BType? }

  predicate Negative(w: Word) { w >= 0x8000_0000 }

  /** Bits `lo` (a power of two) upwards of `w`, `size` (a power of two) values. */
  function Field(w: Word, lo: nat, size: nat): nat
    requires lo > 0 && size > 0
  {
    w / lo % size
  }

  /** The immediate of each format: its bit fields at their places, the upper bits copies of the sign. */
  function Immediate(w: Word): Word {
    var se12 := if Negative(w) then 0xffff_f000 else 0;
    var se20 := if Negative(w) then 0xfff0_0000 else 0;
    match TypeOf(Opcode(w))
    case Unknown => 0
    case RType => 0
    case IType => Field(w, 0x10_0000, 0x1000) + se12
    case SType => Field(w, 0x80, 0x20) + Field(w, 0x200_0000, 0x80) * 0x20 + se12
    case BType =>
      Field(w, 0x100, 0x10) * 2 + Field(w, 0x200_0000, 0x40) * 0x20 + Field(w, 0x80, 2) * 0x800 + se12
    case UType => Field(w, 0x1000, 0x10_0000) * 0x1000
    case JType =>
      Field(w, 0x20_0000, 0x400) * 2 + Field(w, 0x10_0000, 2) * 0x800 + Field(w, 0x1000, 0x100) * 0x1000 + se20
  }

  function Signed(w: Word): int { if Negative(w) then w - MODULUS else w }

  function Pow2(n: nat): (p: nat)
    ensures p > 0
  {
    if n == 0 then 1 else 2 * Pow2(n - 1)
  }

  lemma WordSize()
    ensures Pow2(31) == 0x8000_0000 && Pow2(32) == MODULUS
  {
    assert Pow2(4) == 0x10;
    assert Pow2(8) == 0x100;
    assert Pow2(12) == 0x1000;
    assert Pow2(16) == 0x1_0000;
    assert Pow2(20) == 0x10_0000;
    assert Pow2(24) == 0x100_0000;
    assert Pow2(28) == 0x1000_0000;
  }

  predicate BitOf(op: AluOp, x: bool, y: bool) {
    if op.And? then x && y else if op.Or? then x || y else x != y
  }

  /** A bitwise operator over `n` places, from the least significant one up. */
  function Bitwise(op: AluOp, a: nat, b: nat, n: nat): (r: nat)
    ensures r < Pow2(n)
  {
    if n == 0 then 0
    else (if BitOf(op, a % 2 == 1, b % 2 == 1) then 1 else 0) + 2 * Bitwise(op, a / 2, b / 2, n - 1)
  }

  function BitAnd(a: Word, b: Word): Word {
    WordSize();
    Bitwise(And, a, b, 32)
  }

  function BitOr(a: Word, b: Word): Word {
    WordSize();
    Bitwise(Or, a, b, 32)
  }

  function BitXor(a: Word, b: Word): Word {
    WordSize();
    Bitwise(Xor, a, b, 32)
  }

  /** Shifts move one place at a time. */
  function LeftBy(a: Word, n: nat): Word
    decreases n
  {
    if n == 0 then a else LeftBy(2 * a % MODULUS, n - 1)
  }

  function RightBy(a: Word, n: nat, fill: bool): Word
    decreases n
  {
    if n == 0 then a else RightBy(a / 2 + (if fill then 0x8000_0000 else 0), n - 1, fill)
  }

  /** Shifts take the least significant five bits of the amount; the arithmetic one fills with the sign. */
  function ShiftLeft(a: Word, b: Word): Word { LeftBy(a, b % 32) }

  function ShiftRight(a: Word, b: Word): Word { RightBy(a, b % 32, false) }

  function ShiftRightArithmetic(a: Word, b: Word): Word { RightBy(a, b % 32, Negative(a)) }

  function Alu(op: AluOp, a: Word, b: Word): Word {
    match op
    case AluNop => 0
    case Add => Plus(a, b)
    case Sub => Minus(a, b)
    case And => BitAnd(a, b)
    case Or => BitOr(a, b)
    case Xor => BitXor(a, b)
    case Sll => ShiftLeft(a, b)
    case Srl => ShiftRight(a, b)
    case Sra => ShiftRightArithmetic(a, b)
    case Slt => if Signed(a) < Signed(b) then 1 else 0
    case Sltu => if a < b then 1 else 0
  }

  /** The comparator treats the signed and the unsigned orders alike. */
  function Cmp(op: CmpOp, a: Word, b: Word): bool {
    match op
    case CmpNop => false
    case Eq => a == b
    case Ne => a != b
    case Lt => a < b
    case Ltu => a < b
    case Ge => a >= b
    case Geu => a >= b
  }

  /** The signals the control unit derives from opcode, funct3 and funct7. */
  datatype Control = Control(
    isJalr: bool, wbWe: bool, memWe: bool, memToReg: bool, brnCond: bool,
    jmpCond: bool, cmpControl: CmpOp, aluSrc2: bool, aluOp: AluOp)

  function RegisterAluOp(funct3: nat, funct7: nat): Result<AluOp> {
    if funct3 == 0 then
      if funct7 == 0 then Ok(Add) else if funct7 == 0x20 then Ok(Sub) else Err(InvalidFunct)
    else if funct3 == 1 then Ok(Sll)
    else if funct3 == 2 then Ok(Slt)
    else if funct3 == 3 then Ok(Sltu)
    else if funct3 == 4 then Ok(Xor)
    else if funct3 == 5 then
      if funct7 == 0 then Ok(Srl) else if funct7 == 0x20 then Ok(Sra) else Err(InvalidFunct)
    else if funct3 == 6 then Ok(Or)
    else if funct3 == 7 then Ok(And)
    else Err(InvalidFunct)
  }

  function ImmediateAluOp(funct3: nat, funct7: nat): Result<AluOp> {
    if funct3 == 0 then Ok(Add)
    else if funct3 == 1 then if funct7 == 0 then Ok(Sll) else Err(InvalidFunct)
    else RegisterAluOp(funct3, funct7)
  }

  function BranchCmp(funct3: nat): Result<CmpOp> {
    if funct3 == 0 then Ok(Eq)
    else if funct3 == 1 then Ok(Ne)
    else if funct3 == 4 then Ok(Lt)
    else if funct3 == 5 then Ok(Ge)
    else if funct3 == 6 then Ok(Ltu)
    else if funct3 == 7 then Ok(Geu)
    else Err(InvalidFunct)
  }

  predicate WritesBack(opcode: nat) { opcode != STORE && opcode != BRANCH && opcode != SYSTEM }

  function Decode(w: Word): Result<Control> {
    var opcode := Opcode(w);
    var t := TypeOf(opcode);
    if opcode == FENCE || (opcode == SYSTEM && Funct3(w) != 0) then Err(Unsupported)
    else if opcode == SYSTEM then Err(Ebreak)
    else
      var aluOp :-
        if opcode == OP then RegisterAluOp(Funct3(w), Funct7(w))
        else if opcode == OP_IMM then ImmediateAluOp(Funct3(w), Funct7(w))
        else if t.UType? || opcode == JALR || opcode == LOAD || opcode == STORE then Ok(Add)
        else Ok(AluNop);
      var cmpOp :- if opcode == BRANCH then BranchCmp(Funct3(w)) else Ok(CmpNop);
      Ok(Control(opcode == JALR, WritesBack(opcode), opcode == STORE, opcode != LOAD, opcode == BRANCH,
                 opcode == JAL || opcode == JALR, cmpOp, t.IType? || t.SType? || t.UType?, aluOp))
  }
}
