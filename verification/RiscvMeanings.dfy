/** What each instruction word does, said of numbers and bits: the sequential machine
    that the pipeline refines gives every mnemonic this meaning. */
module RiscvMeanings {
  import opened RiscvBits
  import opened RiscvEncoding
  import opened RiscvInstruction
  import opened RiscvProgress
  import opened RiscvRefinement
  import opened RiscvStages

  /** `w` stands at the program counter, at an aligned place of the instruction memory. */
  predicate Stands(a: Arch, imem: InstrMem, w: Word) {
    a.pc % 4 == 0 && a.pc / 4 < |imem.memory| && imem.memory[a.pc / 4] == w
  }

  /** `n` is the two's complement reading of `w`. */
  predicate Reads(w: Word, n: int) {
    -0x8000_0000 <= n < 0x8000_0000 && (n == w || n + 0x1_0000_0000 == w)
  }

  /** The result of a register instruction on `x` and `y`; funct7 tells ADD from SUB and SRL from SRA. */
  ghost predicate Computes(funct3: nat, funct7: nat, x: Word, y: Word, r: Word) {
    if funct3 == 0 && funct7 == 0 then r == x + y || r + 0x1_0000_0000 == x + y
    else if funct3 == 0 then r + y == x || r + y == x + 0x1_0000_0000
    else if funct3 == 1 then forall i: nat :: i < 32 ==> (Bit(r, i) <==> i >= y % 32 && Bit(x, i - y % 32))
    else if funct3 == 2 then forall m, n :: Reads(x, m) && Reads(y, n) ==> r == if m < n then 1 else 0
    else if funct3 == 3 then r == if x < y then 1 else 0
    else if funct3 == 4 then forall i: nat :: i < 32 ==> (Bit(r, i) <==> Bit(x, i) != Bit(y, i))
    else if funct3 == 5 && funct7 == 0 then
      forall i: nat :: i < 32 ==> (Bit(r, i) <==> i + y % 32 < 32 && Bit(x, i + y % 32))
    else if funct3 == 5 then
      forall i: nat :: i < 32 ==> (Bit(r, i) <==> Bit(x, if i + y % 32 < 32 then i + y % 32 else 31))
    else if funct3 == 6 then forall i: nat :: i < 32 ==> (Bit(r, i) <==> Bit(x, i) || Bit(y, i))
    else forall i: nat :: i < 32 ==> (Bit(r, i) <==> Bit(x, i) && Bit(y, i))
  }

  /** The next instruction, with `v` in register `rd` unless that is register 0. */
  predicate Wrote(a: Arch, next: Result<Arch>, rd: RegNum, v: Word) {
    && next.Ok? && next.value.mem == a.mem && next.value.pc == (a.pc + 4) % 0x1_0000_0000
    && (forall q: RegNum :: next.value.regs[q] == if q == rd && q != 0 then v else a.regs[q])
  }

  lemma OneReading(w: Word)
    ensures Reads(w, Signed(w))
    ensures forall n :: Reads(w, n) ==> n == Signed(w)
  {
    forall n | Reads(w, n) ensures n == Signed(w) {
      assert w < 0x8000_0000 <==> n == w;
    }
  }

  lemma SignedOrder(x: Word, y: Word)
    ensures forall m, n :: Reads(x, m) && Reads(y, n) ==> (Signed(x) < Signed(y) <==> m < n)
  {
    hide Signed, Reads;
    OneReading(x);
    OneReading(y);
  }

  lemma Sums(x: Word, y: Word)
    ensures Computes(0, 0, x, y, Alu(Add, x, y)) && Computes(0, 0x20, x, y, Alu(Sub, x, y))
  {
  }

  lemma Orders(x: Word, y: Word)
    ensures forall f :: Computes(2, f, x, y, Alu(Slt, x, y)) && Computes(3, f, x, y, Alu(Sltu, x, y))
  {
    hide Signed, Reads;
    SignedOrder(x, y);
  }

  lemma Bits(x: Word, y: Word, funct7: nat)
    ensures Computes(4, funct7, x, y, Alu(Xor, x, y))
    ensures Computes(6, funct7, x, y, Alu(Or, x, y)) && Computes(7, funct7, x, y, Alu(And, x, y))
  {
    hide BitAnd, BitOr, BitXor, Bit;
    var a, o, e := BitAnd(x, y), BitOr(x, y), BitXor(x, y);
    forall i: nat | i < 32
      ensures Bit(a, i) <==> Bit(x, i) && Bit(y, i)
      ensures Bit(o, i) <==> Bit(x, i) || Bit(y, i)
      ensures Bit(e, i) <==> Bit(x, i) != Bit(y, i)
    {
      BitwiseBits(x, y, i);
    }
  }

  lemma Shifts(x: Word, y: Word, funct7: nat)
    ensures Computes(1, funct7, x, y, Alu(Sll, x, y))
    ensures Computes(5, 0, x, y, Alu(Srl, x, y)) && Computes(5, 0x20, x, y, Alu(Sra, x, y))
  {
    hide ShiftLeft, ShiftRight, ShiftRightArithmetic, Bit;
    var l, r, s, n := ShiftLeft(x, y), ShiftRight(x, y), ShiftRightArithmetic(x, y), y % 32;
    forall i: nat | i < 32
      ensures Bit(l, i) <==> i >= n && Bit(x, i - n)
      ensures Bit(r, i) <==> i + n < 32 && Bit(x, i + n)
      ensures Bit(s, i) <==> Bit(x, if i + n < 32 then i + n else 31)
    {
      ShiftBits(x, y, i);
    }
  }

  lemma RegisterOp(funct3: Places3, funct7: Places7, x: Word, y: Word)
    ensures var op := RegisterAluOp(funct3, funct7);
      if (funct3 == 0 || funct3 == 5) && funct7 != 0 && funct7 != 0x20 then op == Err(InvalidFunct)
      else op.Ok? && Computes(funct3, funct7, x, y, Alu(op.value, x, y))
  {
    hide Computes, Alu;
    Sums(x, y);
    Orders(x, y);
    Bits(x, y, funct7);
    Shifts(x, y, funct7);
  }

  lemma Fetched(a: Arch, imem: InstrMem, w: Word)
    requires Stands(a, imem, w)
    ensures imem.WordAt(a.pc) == w && Plus(a.pc, 4) % 4 == 0 && Plus(a.pc, 4) == (a.pc + 4) % 0x1_0000_0000
  {
  }

  /** ADD, SUB, SLL, SLT, SLTU, XOR, SRL, SRA, OR, AND. */
  lemma RegisterInstruction(a: Arch, imem: InstrMem, rd: Places5, funct3: Places3, rs1: Places5, rs2: Places5, funct7: Places7)
    returns (r: Word)
    requires Stands(a, imem, RWord(0x33, rd, funct3, rs1, rs2, funct7))
    ensures if (funct3 == 0 || funct3 == 5) && funct7 != 0 && funct7 != 0x20 then Step(a, imem) == Err(InvalidFunct)
            else Wrote(a, Step(a, imem), rd, r) && Computes(funct3, funct7, a.regs[rs1], a.regs[rs2], r)
  {
    hide RWord, Computes, Alu, InstrMem.WordAt, Plus, Immediate;
    var w := RWord(0x33, rd, funct3, rs1, rs2, funct7);
    Fields(0x33, rd, funct3, rs1, rs2, funct7);
    Fetched(a, imem, w);
    RegisterOp(funct3, funct7, a.regs[rs1], a.regs[rs2]);
    var op := RegisterAluOp(funct3, funct7);
    r := if op.Ok? then Alu(op.value, a.regs[rs1], a.regs[rs2]) else 0;
  }

  /** ADDI, SLLI, SLTI, SLTIU, XORI, SRLI, SRAI, ORI, ANDI: the register instruction on the immediate
      modulo 2^32. */
  lemma ImmediateInstruction(a: Arch, imem: InstrMem, rd: Places5, funct3: Places3, rs1: Places5, imm: int) returns (r: Word)
    requires -0x800 <= imm < 0x800 && Stands(a, imem, IWord(0x13, rd, funct3, rs1, imm))
    ensures var funct7 := imm % 0x1000 / 0x20;
      if (funct3 == 1 && funct7 != 0) || (funct3 == 5 && funct7 != 0 && funct7 != 0x20) then Step(a, imem) == Err(InvalidFunct)
      else
        && Wrote(a, Step(a, imem), rd, r)
        && Computes(funct3, if funct3 == 5 then funct7 else 0, a.regs[rs1], imm % 0x1_0000_0000, r)
  {
    hide IWord, Opcode, Rd, Funct3, Rs1, Funct7, Computes, Alu, InstrMem.WordAt, Plus, Immediate;
    var u, w := imm % 0x1000, IWord(0x13, rd, funct3, rs1, imm);
    IFields(0x13, rd, funct3, rs1, imm);
    IImmediate(0x13, rd, funct3, rs1, imm);
    Fetched(a, imem, w);
    RegisterOp(funct3, if funct3 == 5 then u / 0x20 else 0, a.regs[rs1], imm % 0x1_0000_0000);
    var op := ImmediateAluOp(funct3, u / 0x20);
    r := if op.Ok? then Alu(op.value, a.regs[rs1], imm % 0x1_0000_0000) else 0;
  }

  lemma Lui(a: Arch, imem: InstrMem, rd: Places5, upper: Places20)
    requires Stands(a, imem, UWord(0x37, rd, upper))
    ensures Wrote(a, Step(a, imem), rd, upper * 0x1000)
  {
    hide UWord, InstrMem.WordAt, Immediate;
    UFields(0x37, rd, upper);
    UImmediate(0x37, rd, upper);
    Fetched(a, imem, UWord(0x37, rd, upper));
  }

  lemma Auipc(a: Arch, imem: InstrMem, rd: Places5, upper: Places20)
    requires Stands(a, imem, UWord(0x17, rd, upper))
    ensures Wrote(a, Step(a, imem), rd, (a.pc + upper * 0x1000) % 0x1_0000_0000)
  {
    hide UWord, InstrMem.WordAt, Immediate;
    UFields(0x17, rd, upper);
    UImmediate(0x17, rd, upper);
    Fetched(a, imem, UWord(0x17, rd, upper));
  }

  /** A jump to `target` that keeps the address behind it in `rd`. */
  predicate Jumped(a: Arch, next: Result<Arch>, rd: RegNum, target: Word) {
    if target % 4 != 0 then next == Err(Misaligned)
    else
      && next.Ok? && next.value.mem == a.mem && next.value.pc == target
      && (forall q: RegNum ::
            next.value.regs[q] == if q == rd && q != 0 then (a.pc + 4) % 0x1_0000_0000 else a.regs[q])
  }

  lemma Jal(a: Arch, imem: InstrMem, rd: Places5, imm: int)
    requires -0x10_0000 <= imm < 0x10_0000 && imm % 2 == 0 && Stands(a, imem, JWord(0x6f, rd, imm))
    ensures Jumped(a, Step(a, imem), rd, (a.pc + imm) % 0x1_0000_0000)
  {
    hide JWord, Opcode, Rd, InstrMem.WordAt, Immediate, Plus;
    JWordFields(rd, imm);
    JImmediate(rd, imm);
    Fetched(a, imem, JWord(0x6f, rd, imm));
    PlusWrapped(a.pc, imm);
  }

  lemma PlusWrapped(a: Word, n: int)
    ensures Plus(a, n % 0x1_0000_0000) == (a + n) % 0x1_0000_0000
  {
  }

  lemma WithoutLowBit(a: Word, sum: Word)
    ensures Plus(a, sum - sum % 2) == (a + sum / 2 * 2) % 0x1_0000_0000
  {
    assert sum - sum % 2 == sum / 2 * 2;
  }

  lemma JalrStep(a: Arch, imem: InstrMem, w: Word)
    requires imem.WordAt(a.pc) == w && Opcode(w) == 0x67
    requires Plus(a.pc, 4) == (a.pc + 4) % 0x1_0000_0000
    ensures var sum := Plus(a.regs[Rs1(w)], Immediate(w)); Jumped(a, Step(a, imem), Rd(w), Plus(a.pc, sum - sum % 2))
  {
    hide Opcode, Rd, Funct3, Rs1, Funct7, InstrMem.WordAt, Immediate, Plus;
  }

  /** The target of JALR counts from its own address, as the pipeline computes it. */
  lemma Jalr(a: Arch, imem: InstrMem, rd: Places5, funct3: Places3, rs1: Places5, imm: int)
    requires -0x800 <= imm < 0x800 && Stands(a, imem, IWord(0x67, rd, funct3, rs1, imm))
    ensures var sum := (a.regs[rs1] + imm) % 0x1_0000_0000;
      Jumped(a, Step(a, imem), rd, (a.pc + sum / 2 * 2) % 0x1_0000_0000)
  {
    hide IWord, Opcode, Rd, Funct3, Rs1, Funct7, InstrMem.WordAt, Immediate, Plus, Step, Jumped;
    var w := IWord(0x67, rd, funct3, rs1, imm);
    IFields(0x67, rd, funct3, rs1, imm);
    IImmediate(0x67, rd, funct3, rs1, imm);
    Fetched(a, imem, w);
    JalrStep(a, imem, w);
    PlusWrapped(a.regs[rs1], imm);
    WithoutLowBit(a.pc, (a.regs[rs1] + imm) % 0x1_0000_0000);
  }

  /** BEQ, BNE, BLT, BGE, BLTU, BGEU: both orders are the unsigned one. */
  lemma BranchInstruction(a: Arch, imem: InstrMem, funct3: Places3, rs1: Places5, rs2: Places5, imm: int)
    requires -0x1000 <= imm < 0x1000 && imm % 2 == 0 && Stands(a, imem, BWord(0x63, funct3, rs1, rs2, imm))
    ensures var x, y := a.regs[rs1], a.regs[rs2];
      var taken :=
        if funct3 == 0 then x == y
        else if funct3 == 1 then x != y
        else if funct3 == 4 || funct3 == 6 then x < y
        else x >= y;
      var target := (a.pc + if taken then imm else 4) % 0x1_0000_0000;
      Step(a, imem) ==
        if funct3 == 2 || funct3 == 3 then Err(InvalidFunct)
        else if target % 4 != 0 then Err(Misaligned)
        else Ok(a.(pc := target))
  {
    hide BWord, Opcode, Rd, Funct3, Rs1, Rs2, Funct7, InstrMem.WordAt, Immediate, Plus;
    BWordFields(funct3, rs1, rs2, imm);
    BImmediate(funct3, rs1, rs2, imm);
    Fetched(a, imem, BWord(0x63, funct3, rs1, rs2, imm));
    PlusWrapped(a.pc, imm);
  }

  /** Byte `b` is in the data memory at `p`; what was never written is 0. */
  predicate Holds(m: Bytes, p: Word, b: int) { if p in m then m[p] == b else b == 0 }

  /** LB, LH, LW, LBU, LHU of the bytes `b0` to `b3`, least significant first. */
  predicate Loads(funct3: nat, b0: Byte, b1: Byte, b2: Byte, b3: Byte, r: Word) {
    if funct3 == 0 then Reads(r, if b0 < 128 then b0 else b0 - 256)
    else if funct3 == 1 then Reads(r, if b1 < 128 then b0 + 256 * b1 else b0 + 256 * b1 - 65536)
    else if funct3 == 2 then r == b0 + 256 * b1 + 65536 * b2 + 16777216 * b3
    else if funct3 == 4 then r == b0
    else r == b0 + 256 * b1
  }

  /** The four bytes from `p` on. */
  predicate HoldsFour(m: Bytes, p: Word, b0: Byte, b1: Byte, b2: Byte, b3: Byte) {
    && Holds(m, p, b0) && Holds(m, (p + 1) % 0x1_0000_0000, b1)
    && Holds(m, (p + 2) % 0x1_0000_0000, b2) && Holds(m, (p + 3) % 0x1_0000_0000, b3)
  }

  lemma LoadInstruction(a: Arch, imem: InstrMem, rd: Places5, funct3: Places3, rs1: Places5, imm: int,
                        b0: Byte, b1: Byte, b2: Byte, b3: Byte) returns (r: Word)
    requires -0x800 <= imm < 0x800 && Stands(a, imem, IWord(0x03, rd, funct3, rs1, imm))
    requires HoldsFour(a.mem, (a.regs[rs1] + imm) % 0x1_0000_0000, b0, b1, b2, b3)
    ensures
      if (a.regs[rs1] + imm) % 0x1_0000_0000 > 16384 then Step(a, imem) == Err(BadDataAddress)
      else if funct3 == 3 || funct3 == 6 || funct3 == 7 then Step(a, imem) == Err(BadLoadMode)
      else Wrote(a, Step(a, imem), rd, r) && Loads(funct3, b0, b1, b2, b3, r)
  {
    hide IWord, Opcode, Rd, Funct3, Rs1, Funct7, InstrMem.WordAt, Immediate, Plus, Loads, LoadValue;
    var address := (a.regs[rs1] + imm) % 0x1_0000_0000;
    IFields(0x03, rd, funct3, rs1, imm);
    IImmediate(0x03, rd, funct3, rs1, imm);
    Fetched(a, imem, IWord(0x03, rd, funct3, rs1, imm));
    PlusWrapped(a.regs[rs1], imm);
    LoadedValue(a.mem, funct3, address, b0, b1, b2, b3);
    var data := LoadValue(a.mem, funct3, address);
    r := if data.Ok? then data.value else 0;
  }

  lemma LoadedValue(m: Bytes, funct3: Places3, p: Word, b0: Byte, b1: Byte, b2: Byte, b3: Byte)
    requires HoldsFour(m, p, b0, b1, b2, b3)
    ensures var data := LoadValue(m, funct3, p);
      if p > 16384 then data == Err(BadDataAddress)
      else if funct3 == 3 || funct3 == 6 || funct3 == 7 then data == Err(BadLoadMode)
      else data.Ok? && Loads(funct3, b0, b1, b2, b3, data.value)
  {
  }

  /** SB, SH, SW: the memory with the low bytes of `v` from `p` on and every other byte as it was. */
  ghost predicate Stored(m: Bytes, next: Bytes, p: Word, v: Word, count: nat) {
    forall q: Word :: StoredAt(m, next, p, v, count, q)
  }

  predicate StoredAt(m: Bytes, next: Bytes, p: Word, v: Word, count: nat, q: Word) {
    var k := (q - p) % 0x1_0000_0000;
    if k < count then
      Holds(next, q, if k == 0 then v % 256 else if k == 1 then v / 256 % 256
                     else if k == 2 then v / 65536 % 256 else v / 16777216)
    else Holds(next, q, if q in m then m[q] else 0)
  }

  lemma StoreInstruction(a: Arch, imem: InstrMem, funct3: Places3, rs1: Places5, rs2: Places5, imm: int)
    requires -0x800 <= imm < 0x800 && Stands(a, imem, SWord(0x23, funct3, rs1, rs2, imm))
    ensures var p := (a.regs[rs1] + imm) % 0x1_0000_0000; var next := Step(a, imem);
      if p > 16384 then next == Err(BadDataAddress)
      else if funct3 == 3 || funct3 == 6 || funct3 == 7 then next == Err(BadLoadMode)
      else
        && next.Ok? && next.value.regs == a.regs && next.value.pc == (a.pc + 4) % 0x1_0000_0000
        && Stored(a.mem, next.value.mem, p, a.regs[rs2],
                  if funct3 == 0 then 1 else if funct3 == 1 then 2 else if funct3 == 2 then 4 else 0)
  {
    hide SWord, Opcode, Rd, Funct3, Rs1, Rs2, Funct7, InstrMem.WordAt, Immediate, Plus, Stored, StoreValue, LoadValue;
    var p, v := (a.regs[rs1] + imm) % 0x1_0000_0000, a.regs[rs2];
    SWordFields(funct3, rs1, rs2, imm);
    SImmediate(funct3, rs1, rs2, imm);
    Fetched(a, imem, SWord(0x23, funct3, rs1, rs2, imm));
    PlusWrapped(a.regs[rs1], imm);
    StoredValue(a.mem, funct3, p, v);
    LoadFaults(StoreValue(a.mem, funct3, p, v), funct3, p);
  }

  lemma StoredValue(m: Bytes, funct3: Places3, p: Word, v: Word)
    ensures Stored(m, StoreValue(m, funct3, p, v), p, v,
                   if funct3 == 0 then 1 else if funct3 == 1 then 2 else if funct3 == 2 then 4 else 0)
  {
    var next := StoreValue(m, funct3, p, v);
    var count := if funct3 == 0 then 1 else if funct3 == 1 then 2 else if funct3 == 2 then 4 else 0;
    forall q: Word ensures StoredAt(m, next, p, v, count, q) {
      StoredByte(m, funct3, p, v, q);
    }
  }

  lemma StoredByte(m: Bytes, funct3: Places3, p: Word, v: Word, q: Word)
    ensures StoredAt(m, StoreValue(m, funct3, p, v), p, v,
                     if funct3 == 0 then 1 else if funct3 == 1 then 2 else if funct3 == 2 then 4 else 0, q)
  {
    hide Plus;
    Offset(p, q);
  }

  lemma Offset(p: Word, q: Word)
    ensures var k := (q - p) % 0x1_0000_0000;
      && (q == p <==> k == 0) && (q == Plus(p, 1) <==> k == 1) && (q == Plus(p, 2) <==> k == 2)
      && (q == Plus(p, 3) <==> k == 3)
  {
  }

  lemma LoadFaults(m: Bytes, funct3: Places3, p: Word)
    ensures LoadValue(m, funct3, p).Ok? <==> p <= 16384 && funct3 != 3 && funct3 != 6 && funct3 != 7
    ensures LoadValue(m, funct3, p).Err? ==>
      LoadValue(m, funct3, p).fault == if p > 16384 then BadDataAddress else BadLoadMode
  {
  }

  /** Fences and the other system words are unsupported, EBREAK and ECALL end the run. */
  lemma SystemWord(a: Arch, imem: InstrMem, w: Word)
    requires Stands(a, imem, w) && (w % 128 == 0x0f || w % 128 == 0x73)
    ensures Step(a, imem) == Err(if w % 128 == 0x73 && w / 4096 % 8 == 0 then Ebreak else Unsupported)
  {
    hide Plus;
  }

  /** A word of any other opcode clears the register its rd places name. */
  lemma UnknownWord(a: Arch, imem: InstrMem, w: Word)
    requires Stands(a, imem, w)
    requires w % 128 !in {0x33, 0x13, 0x03, 0x23, 0x63, 0x6f, 0x67, 0x37, 0x17, 0x73, 0x0f}
    ensures Wrote(a, Step(a, imem), w / 128 % 32, 0)
  {
    hide Immediate, Rd;
    assert Rd(w) == w / 128 % 32 by { RdPlaces(w); }
  }

  lemma RdPlaces(w: Word)
    ensures Rd(w) == w / 128 % 32
  {
  }

  /** Behind the loaded words the memory reads as zero words, which do nothing. */
  lemma NothingLoaded(a: Arch, imem: InstrMem)
    requires a.pc % 4 == 0 && a.pc / 4 >= |imem.memory|
    ensures Step(a, imem) == Ok(a.(pc := (a.pc + 4) % 0x1_0000_0000))
  {
    hide Immediate;
  }

  // ----- The condition on programs, in the places of the word -----

  /** The words that cannot be decoded. */
  lemma UndecodableIff(w: Word)
    ensures Decode(w).Err? <==>
      var opcode, funct3, funct7 := w % 128, w / 0x1000 % 8, w / 0x200_0000;
      || opcode == 0x0f || opcode == 0x73
      || (opcode == 0x33 && (funct3 == 0 || funct3 == 5) && funct7 != 0 && funct7 != 0x20)
      || (opcode == 0x13 && funct3 == 1 && funct7 != 0)
      || (opcode == 0x13 && funct3 == 5 && funct7 != 0 && funct7 != 0x20)
      || (opcode == 0x63 && (funct3 == 2 || funct3 == 3))
  {
    hide Opcode, Funct3, Funct7;
    assert Opcode(w) == w % 128 && Funct3(w) == w / 0x1000 % 8 && Funct7(w) == w / 0x200_0000 by { DecodedPlaces(w); }
  }

  lemma DecodedPlaces(w: Word)
    ensures Opcode(w) == w % 128 && Funct3(w) == w / 0x1000 % 8 && Funct7(w) == w / 0x200_0000
  {
  }

  lemma ComparesIff(w: Word, r: RegNum)
    ensures Uses(w, r) <==>
      && r != 0
      && ((w % 128 !in {0x37, 0x17, 0x6f} && r == w / 0x8000 % 32) ||
          (w % 128 in {0x33, 0x23, 0x63} && r == w / 0x10_0000 % 32))
    ensures Compares(w, r) <==>
      && r != 0
      && ((w % 128 !in {0x37, 0x17, 0x6f} && r == w / 0x8000 % 32) ||
          (w % 128 in {0x33, 0x23, 0x63, 0x03, 0x13, 0x73, 0x67} && r == w / 0x10_0000 % 32))
    ensures Writes(w) <==> w % 128 !in {0x23, 0x63, 0x73}
    ensures IsLoad(w) <==> w % 128 == 0x03
    ensures Jumps(w) <==> w % 128 in {0x6f, 0x67, 0x63}
  {
    hide Rs1, Rs2;
    RsPlaces(w);
  }

  lemma RsPlaces(w: Word)
    ensures Rs1(w) == w / 0x8000 % 32 && Rs2(w) == w / 0x10_0000 % 32
  {
  }
}
