/** Instruction words put together from opcode, registers and signed immediates, as the
    RV32I formats lay them out, and what the simulator reads back from them. */
module RiscvEncoding {
  import opened RiscvBits
  import opened RiscvInstruction

  type Places5 = n: nat | n < 0x20
  type Places3 = n: nat | n < 8
  type Places7 = n: nat | n < 0x80
  type Places20 = n: nat | n < 0x10_0000

  function RWord(opcode: Places7, rd: Places5, funct3: Places3, rs1: Places5, rs2: Places5, funct7: Places7): Word {
    opcode + rd * 0x80 + funct3 * 0x1000 + rs1 * 0x8000 + rs2 * 0x10_0000 + funct7 * 0x200_0000
  }

  /** The immediate in the upper twelve bits. */
  function IWord(opcode: Places7, rd: Places5, funct3: Places3, rs1: Places5, imm: int): Word {
    var u := imm % 0x1000;
    RWord(opcode, rd, funct3, rs1, u % 0x20, u / 0x20)
  }

  /** The immediate in the places of rd and funct7. */
  function SWord(opcode: Places7, funct3: Places3, rs1: Places5, rs2: Places5, imm: int): Word {
    var u := imm % 0x1000;
    RWord(opcode, u % 0x20, funct3, rs1, rs2, u / 0x20)
  }

  /** Bits 4 to 1 and 11 in the places of rd, bits 12 and 10 to 5 in those of funct7. */
  function BWord(opcode: Places7, funct3: Places3, rs1: Places5, rs2: Places5, imm: int): Word {
    var u := imm % 0x2000;
    RWord(opcode, u / 2 % 0x10 * 2 + u / 0x800 % 2, funct3, rs1, rs2, u / 0x1000 * 0x40 + u / 0x20 % 0x40)
  }

  function UWord(opcode: Places7, rd: Places5, upper: Places20): Word { opcode + rd * 0x80 + upper * 0x1000 }

  /** Bits 20, 10 to 1, 11 and 19 to 12, from the top. */
  function JWord(opcode: Places7, rd: Places5, imm: int): Word {
    var u := imm % 0x20_0000;
    UWord(opcode, rd, u / 0x10_0000 * 0x8_0000 + u / 2 % 0x400 * 0x200 + u / 0x800 % 2 * 0x100 + u / 0x1000 % 0x100)
  }

  /** `mid` stands at the places from `lo` on, `size` values wide. */
  lemma FieldAt(w: Word, lo: nat, size: nat, low: nat, mid: nat, high: nat)
    requires low < lo && mid < size && w == low + (mid + high * size) * lo
    ensures Field(w, lo, size) == mid && w / lo == mid + high * size
  {
    Cut(low, mid + high * size, lo);
    Cut(mid, high, size);
  }

  lemma Fields(opcode: Places7, rd: Places5, funct3: Places3, rs1: Places5, rs2: Places5, funct7: Places7)
    ensures var w := RWord(opcode, rd, funct3, rs1, rs2, funct7);
      && Opcode(w) == opcode && Rd(w) == rd && Funct3(w) == funct3 && Rs1(w) == rs1 && Rs2(w) == rs2
      && Funct7(w) == funct7 && (Negative(w) <==> funct7 >= 0x40)
  {
    var w := RWord(opcode, rd, funct3, rs1, rs2, funct7);
    assert Opcode(w) == opcode by {
      FieldAt(w, 1, 0x80, 0, opcode, rd + funct3 * 0x20 + rs1 * 0x100 + rs2 * 0x2000 + funct7 * 0x4_0000);
    }
    assert Rd(w) == rd by { FieldAt(w, 0x80, 0x20, opcode, rd, funct3 + rs1 * 8 + rs2 * 0x100 + funct7 * 0x2000); }
    assert Funct3(w) == funct3 by {
      FieldAt(w, 0x1000, 8, opcode + rd * 0x80, funct3, rs1 + rs2 * 0x20 + funct7 * 0x400);
    }
    assert Rs1(w) == rs1 by {
      FieldAt(w, 0x8000, 0x20, opcode + rd * 0x80 + funct3 * 0x1000, rs1, rs2 + funct7 * 0x20);
    }
    assert Rs2(w) == rs2 by {
      FieldAt(w, 0x10_0000, 0x20, opcode + rd * 0x80 + funct3 * 0x1000 + rs1 * 0x8000, rs2, funct7);
    }
    assert Funct7(w) == funct7 by {
      FieldAt(w, 0x200_0000, 0x80, opcode + rd * 0x80 + funct3 * 0x1000 + rs1 * 0x8000 + rs2 * 0x10_0000, funct7, 0);
    }
  }

  /** Every word is put together from its places. */
  lemma EveryWord(w: Word)
    ensures RWord(w % 0x80, w / 0x80 % 0x20, w / 0x1000 % 8, w / 0x8000 % 0x20, w / 0x10_0000 % 0x20, w / 0x200_0000) == w
  {
    assert w / 0x1000 == w / 0x80 / 0x20;
    assert w / 0x8000 == w / 0x1000 / 8;
    assert w / 0x10_0000 == w / 0x8000 / 0x20;
    assert w / 0x200_0000 == w / 0x10_0000 / 0x20;
  }

  // ----- The immediates -----

  type Places1 = n: nat | n < 2
  type Places4 = n: nat | n < 0x10
  type Places6 = n: nat | n < 0x40
  type Places8 = n: nat | n < 0x100
  type Places10 = n: nat | n < 0x400

  lemma IParts(opcode: Places7, rd: Places5, funct3: Places3, rs1: Places5, low: Places5, high: Places7)
    requires opcode == 0x03 || opcode == 0x13 || opcode == 0x67 || opcode == 0x73
    ensures Immediate(RWord(opcode, rd, funct3, rs1, low, high)) ==
            low + high * 0x20 + (if high >= 0x40 then 0xffff_f000 else 0)
  {
    Fields(opcode, rd, funct3, rs1, low, high);
    FieldAt(RWord(opcode, rd, funct3, rs1, low, high), 0x10_0000, 0x1000,
            opcode + rd * 0x80 + funct3 * 0x1000 + rs1 * 0x8000, low + high * 0x20, 0);
  }

  lemma SParts(funct3: Places3, rs1: Places5, rs2: Places5, low: Places5, high: Places7)
    ensures Immediate(RWord(0x23, low, funct3, rs1, rs2, high)) ==
            low + high * 0x20 + (if high >= 0x40 then 0xffff_f000 else 0)
  {
    hide Negative;
    var w := RWord(0x23, low, funct3, rs1, rs2, high);
    Fields(0x23, low, funct3, rs1, rs2, high);
    FieldAt(w, 0x80, 0x20, 0x23, low, funct3 + rs1 * 8 + rs2 * 0x100 + high * 0x2000);
    FieldAt(w, 0x200_0000, 0x80, 0x23 + low * 0x80 + funct3 * 0x1000 + rs1 * 0x8000 + rs2 * 0x10_0000, high, 0);
  }

  lemma BFields(funct3: Places3, rs1: Places5, rs2: Places5, b: Places1, low: Places4, mid: Places6, sign: Places1)
    ensures var w := RWord(0x63, low * 2 + b, funct3, rs1, rs2, sign * 0x40 + mid);
      && Field(w, 0x200_0000, 0x40) == mid && Field(w, 0x80, 2) == b && Field(w, 0x100, 0x10) == low
  {
    hide Field;
    var rd, funct7 := low * 2 + b, sign * 0x40 + mid;
    var w := RWord(0x63, rd, funct3, rs1, rs2, funct7);
    FieldAt(w, 0x200_0000, 0x40, 0x63 + rd * 0x80 + funct3 * 0x1000 + rs1 * 0x8000 + rs2 * 0x10_0000, mid, sign);
    var high := funct3 + rs1 * 8 + rs2 * 0x100 + funct7 * 0x2000;
    FieldAt(w, 0x80, 2, 0x63, b, low + high * 0x10);
    FieldAt(w, 0x100, 0x10, 0x63 + b * 0x80, low, high);
  }

  lemma BParts(funct3: Places3, rs1: Places5, rs2: Places5, b: Places1, low: Places4, mid: Places6, sign: Places1)
    ensures Immediate(RWord(0x63, low * 2 + b, funct3, rs1, rs2, sign * 0x40 + mid)) ==
            low * 2 + mid * 0x20 + b * 0x800 + sign * 0xffff_f000
  {
    hide Negative, Field, RWord, Opcode, Rd, Rs1, Rs2, Funct3, Funct7;
    Fields(0x63, low * 2 + b, funct3, rs1, rs2, sign * 0x40 + mid);
    BFields(funct3, rs1, rs2, b, low, mid, sign);
  }

  lemma UFields(opcode: Places7, rd: Places5, upper: Places20)
    ensures var w := UWord(opcode, rd, upper);
      Opcode(w) == opcode && Rd(w) == rd && (Negative(w) <==> upper >= 0x8_0000)
  {
    var w := UWord(opcode, rd, upper);
    FieldAt(w, 1, 0x80, 0, opcode, rd + upper * 0x20);
    FieldAt(w, 0x80, 0x20, opcode, rd, upper);
  }

  lemma JFields(rd: Places5, a: Places10, b: Places1, c: Places8, sign: Places1)
    ensures var w := UWord(0x6f, rd, sign * 0x8_0000 + a * 0x200 + b * 0x100 + c);
      && Field(w, 0x1000, 0x100) == c && Field(w, 0x10_0000, 2) == b && Field(w, 0x20_0000, 0x400) == a
  {
    hide Field;
    var w := UWord(0x6f, rd, sign * 0x8_0000 + a * 0x200 + b * 0x100 + c);
    FieldAt(w, 0x1000, 0x100, 0x6f + rd * 0x80, c, b + a * 2 + sign * 0x800);
    FieldAt(w, 0x10_0000, 2, 0x6f + rd * 0x80 + c * 0x1000, b, a + sign * 0x400);
    FieldAt(w, 0x20_0000, 0x400, 0x6f + rd * 0x80 + c * 0x1000 + b * 0x10_0000, a, sign);
  }

  lemma JParts(rd: Places5, a: Places10, b: Places1, c: Places8, sign: Places1)
    ensures Immediate(UWord(0x6f, rd, sign * 0x8_0000 + a * 0x200 + b * 0x100 + c)) ==
            a * 2 + b * 0x800 + c * 0x1000 + sign * 0xfff0_0000
  {
    hide Negative, Field, UWord, Opcode, Rd;
    UFields(0x6f, rd, sign * 0x8_0000 + a * 0x200 + b * 0x100 + c);
    JFields(rd, a, b, c, sign);
  }

  /** A signed number modulo twice its bound and modulo 2^32. */
  lemma Wrapped(imm: int, bound: int)
    requires bound == 0x800 || bound == 0x1000 || bound == 0x10_0000
    requires -bound <= imm < bound
    ensures var u := imm % (2 * bound);
      && u == (if imm < 0 then imm + 2 * bound else imm) && u / bound == (if imm < 0 then 1 else 0)
      && imm % 0x1_0000_0000 == (if imm < 0 then u + (0x1_0000_0000 - 2 * bound) else u)
  {
    if imm < 0 {
      assert imm % 0x1_0000_0000 == imm + 0x1_0000_0000;
      assert imm % (2 * bound) == imm + 2 * bound;
    }
  }

  lemma ImmediatePieces(imm: int)
    requires -0x800 <= imm < 0x800
    ensures var u := imm % 0x1000;
      u % 0x20 + u / 0x20 * 0x20 + (if u / 0x20 >= 0x40 then 0xffff_f000 else 0) == imm % 0x1_0000_0000
  {
    Wrapped(imm, 0x800);
  }

  /** The immediate of a word is the signed one it was put together from, modulo 2^32. */
  lemma IImmediate(opcode: Places7, rd: Places5, funct3: Places3, rs1: Places5, imm: int)
    requires opcode == 0x03 || opcode == 0x13 || opcode == 0x67 || opcode == 0x73
    requires -0x800 <= imm < 0x800
    ensures Immediate(IWord(opcode, rd, funct3, rs1, imm)) == imm % 0x1_0000_0000
  {
    hide Immediate, RWord;
    var u := imm % 0x1000;
    ImmediatePieces(imm);
    IParts(opcode, rd, funct3, rs1, u % 0x20, u / 0x20);
  }

  lemma SImmediate(funct3: Places3, rs1: Places5, rs2: Places5, imm: int)
    requires -0x800 <= imm < 0x800
    ensures Immediate(SWord(0x23, funct3, rs1, rs2, imm)) == imm % 0x1_0000_0000
  {
    hide Immediate, RWord;
    var u := imm % 0x1000;
    ImmediatePieces(imm);
    SParts(funct3, rs1, rs2, u % 0x20, u / 0x20);
  }

  /** An even number from its pieces. */
  lemma BPieces(u: nat)
    requires u % 2 == 0
    ensures u == u / 2 % 0x10 * 2 + u / 0x20 % 0x40 * 0x20 + u / 0x800 % 2 * 0x800 + u / 0x1000 * 0x1000
  {
    assert u / 0x20 == u / 2 / 0x10;
    assert u / 0x800 == u / 0x20 / 0x40;
    assert u / 0x1000 == u / 0x800 / 2;
  }

  lemma JPieces(u: nat)
    requires u % 2 == 0
    ensures u == u / 2 % 0x400 * 2 + u / 0x800 % 2 * 0x800 + u / 0x1000 % 0x100 * 0x1000 + u / 0x10_0000 * 0x10_0000
  {
    assert u / 0x800 == u / 2 / 0x400;
    assert u / 0x1000 == u / 0x800 / 2;
    assert u / 0x10_0000 == u / 0x1000 / 0x100;
  }

  lemma BImmediate(funct3: Places3, rs1: Places5, rs2: Places5, imm: int)
    requires -0x1000 <= imm < 0x1000 && imm % 2 == 0
    ensures Immediate(BWord(0x63, funct3, rs1, rs2, imm)) == imm % 0x1_0000_0000
  {
    hide Immediate, RWord;
    var u := imm % 0x2000;
    Wrapped(imm, 0x1000);
    BPieces(u);
    BParts(funct3, rs1, rs2, u / 0x800 % 2, u / 2 % 0x10, u / 0x20 % 0x40, u / 0x1000);
  }

  lemma UImmediate(opcode: Places7, rd: Places5, upper: Places20)
    requires opcode == 0x37 || opcode == 0x17
    ensures Immediate(UWord(opcode, rd, upper)) == upper * 0x1000
  {
    hide Negative;
    UFields(opcode, rd, upper);
    FieldAt(UWord(opcode, rd, upper), 0x1000, 0x10_0000, opcode + rd * 0x80, upper, 0);
  }

  lemma JImmediate(rd: Places5, imm: int)
    requires -0x10_0000 <= imm < 0x10_0000 && imm % 2 == 0
    ensures Immediate(JWord(0x6f, rd, imm)) == imm % 0x1_0000_0000
  {
    hide Immediate, UWord;
    var u := imm % 0x20_0000;
    Wrapped(imm, 0x10_0000);
    JPieces(u);
    JParts(rd, u / 2 % 0x400, u / 0x800 % 2, u / 0x1000 % 0x100, u / 0x10_0000);
  }

  // ----- The fields of the formats -----

  lemma IFields(opcode: Places7, rd: Places5, funct3: Places3, rs1: Places5, imm: int)
    ensures var w := IWord(opcode, rd, funct3, rs1, imm);
      && Opcode(w) == opcode && Rd(w) == rd && Funct3(w) == funct3 && Rs1(w) == rs1 && Funct7(w) == imm % 0x1000 / 0x20
  {
    Fields(opcode, rd, funct3, rs1, imm % 0x1000 % 0x20, imm % 0x1000 / 0x20);
  }

  lemma SWordFields(funct3: Places3, rs1: Places5, rs2: Places5, imm: int)
    ensures var w := SWord(0x23, funct3, rs1, rs2, imm);
      Opcode(w) == 0x23 && Funct3(w) == funct3 && Rs1(w) == rs1 && Rs2(w) == rs2
  {
    Fields(0x23, imm % 0x1000 % 0x20, funct3, rs1, rs2, imm % 0x1000 / 0x20);
  }

  lemma BWordFields(funct3: Places3, rs1: Places5, rs2: Places5, imm: int)
    ensures var w := BWord(0x63, funct3, rs1, rs2, imm);
      Opcode(w) == 0x63 && Funct3(w) == funct3 && Rs1(w) == rs1 && Rs2(w) == rs2
  {
    var u := imm % 0x2000;
    Fields(0x63, u / 2 % 0x10 * 2 + u / 0x800 % 2, funct3, rs1, rs2, u / 0x1000 * 0x40 + u / 0x20 % 0x40);
  }

  lemma JWordFields(rd: Places5, imm: int)
    ensures Opcode(JWord(0x6f, rd, imm)) == 0x6f && Rd(JWord(0x6f, rd, imm)) == rd
  {
    var u := imm % 0x20_0000;
    UFields(0x6f, rd, u / 0x10_0000 * 0x8_0000 + u / 2 % 0x400 * 0x200 + u / 0x800 % 2 * 0x100 + u / 0x1000 % 0x100);
  }
}
