/** A program outside the condition of the refinement theorem: the rd field of a branch that is not
    taken names the operand of the next instruction, which is then handed 0 instead of 5. */
module RiscvCounterexample {
  import opened RiscvInstruction
  import opened Wrappers
  import opened RiscvStages
  import opened RiscvRefinement

  const ADDI_X1_5 := 0x0050_0093 // addi x1, x0, 5
  const BNE_NOT_TAKEN := 0x0000_10e3 // bne x0, x0, with 1 in the bits of rd
  const ADDI_X2_X1 := 0x0000_8113 // addi x2, x1, 0

  const PROGRAM := InstrMem([ADDI_X1_5, BNE_NOT_TAKEN, ADDI_X2_X1, 0, 0, 0], 0, 24)

  const ADDI := Control(false, true, false, true, false, false, CmpNop, true, Add)
  const BNE := Control(false, false, false, true, true, false, Ne, false, AluNop)
  const NONE := Control(false, true, false, true, false, false, CmpNop, false, AluNop)

  function Fetched(pc: Word, w: Word): DecodeState { DecodeState(false, pc, w) }

  function On<T>(x: T): Latch<T> { Latch(x, x, true) }

  // The pipeline after each of the first five ticks.

  function S0(): Pipe { Reset(0, map[]) }

  function S1(): Pipe {
    Reset(0, map[]).(pc := On(4), de := On(Fetched(0, ADDI_X1_5)), ex := On(ExecuteState(0, NONE, false, 0, 0, 0, 0)), ticks := 1)
  }

  function S2(): Pipe {
    Reset(0, map[]).(
      pc := On(8), de := On(Fetched(4, BNE_NOT_TAKEN)), ex := On(ExecuteState(0, ADDI, false, 0, 0, 0, ADDI_X1_5)),
      me := On(MemoryState(false, true, true, false, 0, 0, 0, 0)), instrType := IType, ticks := 2)
  }

  function S3(): Pipe {
    Reset(0, map[]).(
      pc := On(12), de := On(Fetched(8, ADDI_X2_X1)), ex := On(ExecuteState(1, BNE, false, 0, 0, 4, BNE_NOT_TAKEN)),
      me := On(MemoryState(false, true, true, false, 0, 0, 5, 1)), wb := On(WriteBackState(true, 0, 0)),
      instrType := BType, pcDisp := 5, ticks := 3)
  }

  /** The branch is in MEM; its rd bits make the hazard unit select its result for x1. */
  function S4(): Pipe {
    Reset(0, map[]).(
      pc := On(16), de := On(Fetched(12, 0)), ex := On(ExecuteState(0, ADDI, false, 0, 0, 8, ADDI_X2_X1)),
      me := On(MemoryState(false, true, false, false, 1, 0, 0, 1)), wb := On(WriteBackState(true, 5, 1)),
      instrType := IType, bpMem := 5, pcDisp := 0x800, huRs1 := MEM, ticks := 4)
  }

  function S5(): Pipe {
    Reset(0, map[]).(
      pc := On(20), de := On(Fetched(16, 0)), ex := On(ExecuteState(0, NONE, false, 0, 0, 12, 0)),
      me := On(MemoryState(false, true, true, false, 0, 0, 0, 2)), wb := On(WriteBackState(false, 0, 1)),
      regs := ZeroRegs()[1 := 5], ticks := 5)
  }

  /** What the stages ask about the four words. */
  lemma Decodings()
    ensures Decode(ADDI_X1_5) == Ok(ADDI) && Decode(ADDI_X2_X1) == Ok(ADDI)
    ensures Decode(BNE_NOT_TAKEN) == Ok(BNE) && Decode(0) == Ok(NONE)
  {
  }

  lemma Immediates()
    ensures Immediate(ADDI_X1_5) == 5 && Immediate(BNE_NOT_TAKEN) == 0x800
    ensures Immediate(ADDI_X2_X1) == 0 && Immediate(0) == 0
  {
  }

  lemma Fields()
    ensures Opcode(ADDI_X1_5) == OP_IMM && Opcode(ADDI_X2_X1) == OP_IMM && Opcode(BNE_NOT_TAKEN) == BRANCH && Opcode(0) == 0
    ensures Funct3(BNE_NOT_TAKEN) == 1 && Funct3(ADDI_X1_5) == 0 && Funct3(ADDI_X2_X1) == 0 && Funct3(0) == 0
    ensures Rd(ADDI_X1_5) == 1 && Rd(BNE_NOT_TAKEN) == 1 && Rd(ADDI_X2_X1) == 2 && Rd(0) == 0
    ensures LoadValue(map[], 0, 0) == Ok(0)
  {
  }

  lemma Sources()
    ensures Rs1(ADDI_X1_5) == 0 && Rs1(BNE_NOT_TAKEN) == 0 && Rs1(ADDI_X2_X1) == 1 && Rs1(0) == 0
    ensures Rs2(ADDI_X1_5) == 5 && Rs2(BNE_NOT_TAKEN) == 0 && Rs2(ADDI_X2_X1) == 0 && Rs2(0) == 0
  {
  }

  /** A tick from `s` to `n` just before its fetch. */
  function Decoded(s: Pipe, n: Pipe): Pipe {
    s.(ex := s.ex.(next := n.ex.current), me := s.me.(next := n.me.current), wb := s.wb.(next := n.wb.current),
       regs := n.regs, instrType := n.instrType, bpMem := n.bpMem, pcDisp := n.pcDisp)
  }

  /** The rest of a tick that fetches from the section, takes no jump and stalls nothing. */
  lemma Completes(s: Pipe, d: Pipe, n: Pipe)
    requires DoMemory(s).Ok? && DoDecode(DoExecute(DoMemory(s).value)) == Ok(d)
    requires d == Decoded(s, n) && !d.lastFlag && !d.pcR && d.pc.current % 4 == 0 && d.pc.current < 24
    requires d.pc.enabled && d.de.enabled && d.ex.enabled && d.me.enabled && d.wb.enabled && !d.de.next.vDe
    requires n == d.(pc := On(d.pc.current + 4), de := On(Fetched(d.pc.current, PROGRAM.WordAt(d.pc.current))),
                     ex := On(d.ex.next), me := On(d.me.next), wb := On(d.wb.next),
                     huRs1 := n.huRs1, huRs2 := n.huRs2, ticks := d.ticks + 1)
    requires n.huRs1 == SelectBypass(n, HasRs1(n.instrType), Rs1(n.ex.current.instr))
    requires n.huRs2 == SelectBypass(n, HasRs2(n.instrType), Rs2(n.ex.current.instr))
    requires n.me.current.memToReg || (!n.huRs1.MEM? && !n.huRs2.MEM?)
    ensures Tick(s, PROGRAM) == Ok(n)
  {
    hide DoMemory, DoExecute, DoDecode, Rs1, Rs2, HasRs1, HasRs2;
    assert DoFetch(d, PROGRAM) ==
      Ok(d.(pc := d.pc.(next := d.pc.current + 4), de := d.de.(next := Fetched(d.pc.current, PROGRAM.WordAt(d.pc.current)))));
  }

  /** The pipeline after `k` ticks. */
  function At(k: nat): Pipe {
    if k == 0 then S0() else if k == 1 then S1() else if k == 2 then S2() else if k == 3 then S3() else if k == 4 then S4()
    else S5()
  }

  /** The tick from `At(k)` just before its decoding. */
  function Executed(k: nat): Pipe {
    var s, n := At(k), At(k + 1);
    s.(me := s.me.(next := n.me.current), wb := s.wb.(next := n.wb.current), bpMem := n.bpMem, pcDisp := n.pcDisp)
  }

  /** The same tick just before its execution. */
  function Remembered(k: nat): Pipe {
    var s, n := At(k), At(k + 1);
    s.(wb := s.wb.(next := n.wb.current), bpMem := n.bpMem)
  }

  lemma Remembers(k: nat)
    requires k < 5
    ensures DoMemory(At(k)) == Ok(Remembered(k))
  {
    hide ZeroRegs, LoadValue, StoreValue;
    Fields();
  }

  lemma Executes(k: nat)
    requires k < 5
    ensures DoExecute(Remembered(k)) == Executed(k)
  {
    hide ZeroRegs, Immediate, Funct3, Opcode, Rd, BitAnd, BitOr, BitXor, ShiftLeft, ShiftRight, ShiftRightArithmetic, Signed;
    Immediates();
    Fields();
  }

  lemma Decodes(k: nat)
    requires k < 5
    ensures DoDecode(Executed(k)) == Ok(Decoded(At(k), At(k + 1)))
  {
    hide ZeroRegs, Decode, Immediate, Funct3, Opcode, Rd, Rs1, Rs2;
    Decodings();
    Fields();
    Sources();
  }

  lemma TickAt(k: nat)
    requires k < 5
    ensures Tick(At(k), PROGRAM) == Ok(At(k + 1))
  {
    hide ZeroRegs, DoMemory, DoExecute, DoDecode, Decode, Immediate, Funct3, Opcode, Rd, Rs1, Rs2, LoadValue, Tick;
    Sources();
    Remembers(k);
    Executes(k);
    Decodes(k);
    Completes(At(k), Decoded(At(k), At(k + 1)), At(k + 1));
  }

  /** After five ticks all three instructions have retired, with 0 in x2; one at a time, they leave 5. */
  lemma AliasedBranchForwardsZero()
    ensures var r := RunFor(0, map[], PROGRAM, 5); var a := Steps(Arch(0, ZeroRegs(), map[]), PROGRAM, 3);
      && r.Some? && r.value.retired == 3 && Drain(r.value.s).Ok? && Drain(r.value.s).value.0[2] == 0
      && a.Ok? && a.value.regs[2] == 5
  {
    Pipelined();
    Sequential();
  }

  lemma FiveTicks()
    ensures Tick(S0(), PROGRAM) == Ok(S1()) && Tick(S1(), PROGRAM) == Ok(S2()) && Tick(S2(), PROGRAM) == Ok(S3())
    ensures Tick(S3(), PROGRAM) == Ok(S4()) && Tick(S4(), PROGRAM) == Ok(S5())
  {
    hide S0, S1, S2, S3, S4, S5, Tick;
    TickAt(0); TickAt(1); TickAt(2); TickAt(3); TickAt(4);
    assert At(0) == S0() && At(1) == S1() && At(2) == S2() && At(3) == S3() && At(4) == S4() && At(5) == S5();
  }

  lemma Pipelined()
    ensures RunFor(0, map[], PROGRAM, 5) == Some(Run(S5(), Stages(Some(4), Some(8), Some(12), Some(16)), 3))
    ensures Drain(S5()).Ok? && Drain(S5()).value.0[2] == 0
  {
    FiveTicks();
    hide Tick;
    assert RunFor(0, map[], PROGRAM, 1) == Some(Run(S1(), Stages(None, None, None, Some(0)), 0));
    assert RunFor(0, map[], PROGRAM, 2) == Some(Run(S2(), Stages(None, None, Some(0), Some(4)), 0));
    assert RunFor(0, map[], PROGRAM, 3) == Some(Run(S3(), Stages(None, Some(0), Some(4), Some(8)), 1));
    assert RunFor(0, map[], PROGRAM, 4) == Some(Run(S4(), Stages(Some(0), Some(4), Some(8), Some(12)), 2));
  }

  lemma Sequential()
    ensures var a := Steps(Arch(0, ZeroRegs(), map[]), PROGRAM, 3); a.Ok? && a.value.regs[2] == 5
  {
    hide ZeroRegs, Decode, Immediate, Opcode, Funct3, Rd, Rs1, Rs2;
    Decodings();
    Immediates();
    Fields();
    Sources();
    var a0 := Arch(0, ZeroRegs(), map[]);
    assert Steps(a0, PROGRAM, 1) == Ok(Arch(4, ZeroRegs()[1 := 5], map[]));
    assert Steps(a0, PROGRAM, 2) == Ok(Arch(8, ZeroRegs()[1 := 5], map[]));
  }
}
