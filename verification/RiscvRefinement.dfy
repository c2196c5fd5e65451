/** The pipeline executes programs as if one instruction at a time: every run of
    clock ticks matches a run of the sequential machine below, with forwarding,
    flushing and the three instructions in flight accounted for. */
module RiscvRefinement {
  import opened RiscvInstruction
  import opened Wrappers
  import opened RiscvStages

  /** What a programmer sees. */
  datatype Arch = Arch(pc: Word, regs: Regs, mem: Bytes)

  /** A load or a store of funct3 `mode`; the loaded word of a store is discarded by the caller. */
  function Access(mem: Bytes, store: bool, mode: nat, a: Word, v: Word): Result<(Bytes, Word)> {
    if store && a > DATA_BYTES then Err(BadDataAddress)
    else
      var mem' := if store then StoreValue(mem, mode, a, v) else mem;
      var data :- LoadValue(mem', mode, a);
      Ok((mem', data))
  }

  /** What a decoded instruction word does with its operands. */
  function StepOn(a: Arch, w: Word, c: Control, srcA: Word, rs2v: Word): Result<Arch> {
    var alu := Alu(c.aluOp, srcA, if c.aluSrc2 then Immediate(w) else rs2v);
    var taken := c.jmpCond || (c.brnCond && Cmp(c.cmpControl, srcA, rs2v));
    var target := Plus(a.pc, if c.isJalr then alu - alu % 2 else Immediate(w));
    var pc := if taken then target else Plus(a.pc, 4);
    var result := if c.jmpCond then Plus(a.pc, 4) else alu;
    if pc % 4 != 0 then Err(Misaligned)
    else if c.memWe || !c.memToReg then
      var (mem, data) :- Access(a.mem, c.memWe, Funct3(w), result, rs2v);
      Ok(Arch(pc, WriteReg(a.regs, c.wbWe, Rd(w), if c.memToReg then result else data), mem))
    else Ok(Arch(pc, WriteReg(a.regs, c.wbWe, Rd(w), result), a.mem))
  }

  /** The first operand, before it reaches the ALU. */
  function FirstOperand(a: Arch, w: Word): Word {
    if Opcode(w) == AUIPC then a.pc else if Opcode(w) == LUI then 0 else a.regs[Rs1(w)]
  }

  /** The sequential machine: the meaning of one instruction word. */
  function Step(a: Arch, imem: InstrMem): Result<Arch> {
    var w := imem.WordAt(a.pc);
    var c :- Decode(w);
    StepOn(a, w, c, FirstOperand(a, w), a.regs[Rs2(w)])
  }

  function Steps(a: Arch, imem: InstrMem, k: nat): Result<Arch> {
    if k == 0 then Ok(a)
    else
      var b :- Steps(a, imem, k - 1);
      Step(b, imem)
  }

  /** Which instruction address occupies each stage; None is a bubble. */
  datatype Stages = Stages(wb: Option<Word>, me: Option<Word>, ex: Option<Word>, de: Option<Word>)

  const EMPTY := Stages(None, None, None, None)

  /** How a tick that left the pipeline in `s'` moved the instructions along. */
  function Advance(t: Stages, s: Pipe, s': Pipe): Stages {
    if s'.pcR then Stages(t.me, t.ex, None, None)
    else Stages(t.me, t.ex, t.de, Some(s.pc.current))
  }

  /** The effect of the instruction whose memory-stage latch is `m`. */
  function Complete(regs: Regs, mem: Bytes, m: MemoryState): Result<(Regs, Bytes)> {
    if !m.memToReg || m.memWe then
      var (mem', data) :- Access(mem, m.memWe, m.storeMode, m.aluRes, m.writeData);
      Ok((WriteReg(regs, m.wbWe, m.wbA, if m.memToReg then m.aluRes else data), mem'))
    else Ok((WriteReg(regs, m.wbWe, m.wbA, m.aluRes), mem))
  }

  /** The registers and memory once the instructions in MEM and WB have completed. */
  function Drain(s: Pipe): Result<(Regs, Bytes)> {
    var w := s.wb.current;
    Complete(WriteReg(s.regs, w.wbWe, w.wbA, w.wbD), s.dmem.bytes, s.me.current)
  }

  /** The address of the next instruction to take effect. */
  function NextPc(s: Pipe, t: Stages): Word {
    if t.ex.Some? then t.ex.value else if t.de.Some? then t.de.value else s.pc.current
  }

  function Abstract(s: Pipe, t: Stages): Result<Arch> {
    var (regs, mem) :- Drain(s);
    Ok(Arch(NextPc(s, t), regs, mem))
  }

  // ----- The condition on programs -----

  predicate Writes(w: Word) { WritesBack(Opcode(w)) }

  predicate IsLoad(w: Word) { Opcode(w) == LOAD }

  /** Only these formats take their second operand from register rs2. */
  predicate ReadsRs2(t: InstrType) { t.RType? || t.SType? || t.BType? }

  /** `w` takes an operand from register `r`. */
  predicate Uses(w: Word, r: RegNum) {
    var t := TypeOf(Opcode(w));
    r != 0 && ((HasRs1(t) && r == Rs1(w)) || (ReadsRs2(t) && r == Rs2(w)))
  }

  /** The hazard unit compares `r` with `w`: it also reads the rs2 bits of an immediate. */
  predicate Compares(w: Word, r: RegNum) {
    var t := TypeOf(Opcode(w));
    r != 0 && ((HasRs1(t) && r == Rs1(w)) || (HasRs2(t) && r == Rs2(w)))
  }

  /** The rd bits of a word that writes nothing back name no operand of the next two words, and no
      load is followed by a word the hazard unit would stall. */
  ghost predicate HazardFree(imem: InstrMem) {
    forall p: Word ::
      && (!Writes(imem.WordAt(p)) ==>
            !Uses(imem.WordAt(Plus(p, 4)), Rd(imem.WordAt(p))) && !Uses(imem.WordAt(Plus(p, 8)), Rd(imem.WordAt(p))))
      && (IsLoad(imem.WordAt(p)) ==> !Compares(imem.WordAt(Plus(p, 4)), Rd(imem.WordAt(p))))
  }

  // ----- The simulation relation -----

  /** The operands EX will see after forwarding. */
  function ForwardA(s: Pipe): Word { Mux3(s.huRs1, s.ex.current.data1, s.me.current.aluRes, s.wb.current.wbD) }

  function ForwardB(s: Pipe): Word { Mux3(s.huRs2, s.ex.current.data2, s.me.current.aluRes, s.wb.current.wbD) }

  predicate Running(s: Pipe) {
    && s.pc.enabled && s.de.enabled && s.ex.enabled && s.me.enabled && s.wb.enabled
    && !s.lastFlag && !s.de.current.vDe && !s.ex.current.vDe
  }

  predicate DecodeOk(s: Pipe, t: Stages, imem: InstrMem) {
    match t.de
    case Some(q) => s.de.current.instr == imem.WordAt(q) && s.de.current.pcDe == q && s.pc.current == Plus(q, 4)
    case None => s.de.current.instr == 0 && t.ex.None?
  }

  predicate ExecuteOk(s: Pipe, t: Stages, imem: InstrMem) {
    var e := s.ex.current;
    match t.ex
    case Some(p) =>
      && e.instr == imem.WordAt(p) && e.pcDe == p && e.funct3 == Funct3(e.instr) && Decode(e.instr) == Ok(e.c)
      && t.de == Some(Plus(p, 4))
    case None => Bubble(e)
  }

  /** A cleared execute register, or the decoding of a cleared decode register. */
  predicate Bubble(e: ExecuteState) {
    && !e.c.isJalr && !e.c.memWe && !e.c.brnCond && !e.c.jmpCond && e.c.aluOp == AluNop
    && e.funct3 == 0 && e.instr == 0
  }

  predicate MemoryOk(s: Pipe, t: Stages, imem: InstrMem) {
    var m := s.me.current;
    match t.me
    case Some(p) =>
      && m.wbA == Rd(imem.WordAt(p)) && m.wbWe == Writes(imem.WordAt(p)) && m.memToReg == !IsLoad(imem.WordAt(p))
      && (t.ex.Some? ==> t.ex == Some(Plus(p, 4)))
    case None => !m.memWe && m.wbA == 0 && m.storeMode == 0 && m.aluRes == 0
  }

  predicate WriteBackOk(s: Pipe, t: Stages, imem: InstrMem) {
    match t.wb
    case Some(p) =>
      && s.wb.current.wbA == Rd(imem.WordAt(p)) && s.wb.current.wbWe == Writes(imem.WordAt(p))
      && (t.ex.Some? ==> t.ex == Some(Plus(p, 8)))
    case None => s.wb.current.wbA == 0
  }

  /** Forwarding delivers the architectural value of every operand the instruction in EX uses. */
  predicate OperandsOk(s: Pipe, t: Stages) {
    var w := s.ex.current.instr;
    t.ex.Some? && Drain(s).Ok? ==>
      var regs := Drain(s).value.0;
      && (Opcode(w) == AUIPC ==> ForwardA(s) == t.ex.value)
      && (Opcode(w) == LUI ==> ForwardA(s) == 0)
      && (HasRs1(TypeOf(Opcode(w))) ==> ForwardA(s) == regs[Rs1(w)])
      && (ReadsRs2(TypeOf(Opcode(w))) ==> ForwardB(s) == regs[Rs2(w)])
  }

  predicate Inv(s: Pipe, t: Stages, imem: InstrMem) {
    && Running(s)
    && DecodeOk(s, t, imem) && ExecuteOk(s, t, imem) && MemoryOk(s, t, imem) && WriteBackOk(s, t, imem)
    && (t.ex.None? && t.de.Some? ==> t.me.None?)
    && OperandsOk(s, t)
  }

  /** A fetch that leaves the shutdown flag down only latches the next word and the next address. */
  lemma FetchFields(d: Pipe, imem: InstrMem)
    requires DoFetch(d, imem).Ok? && !DoFetch(d, imem).value.lastFlag
    ensures var next := if d.pcR then Plus(d.ex.current.pcDe, d.pcDisp) else Plus(d.pc.current, 4);
      && next % 4 == 0
      && DoFetch(d, imem).value ==
         d.(pc := d.pc.(next := next),
            de := d.de.(next := d.de.next.(instr := imem.WordAt(d.pc.current), pcDe := d.pc.current)))
  {
    assert BeginShutdown(d, imem) == Ok(d);
  }

  /** The clock edge and the hazard unit after such a fetch. */
  lemma ClockEdge(d: Pipe, imem: InstrMem, s': Pipe)
    requires d.pc.enabled && d.de.enabled && d.ex.enabled && d.me.enabled && d.wb.enabled
    requires DoFetch(d, imem).Ok?
    requires s' == HazardUnitTick(TickRegisters(DoFetch(d, imem).value)) && !s'.lastFlag
    ensures s'.wb.current == d.wb.next && s'.me.current == d.me.next && s'.dmem == d.dmem && s'.regs == d.regs
    ensures s'.pcR == d.pcR && s'.me.enabled && s'.wb.enabled && s'.pc.current % 4 == 0
    ensures s'.me.next == d.me.next && s'.wb.next == d.wb.next
    ensures s'.pcR ==>
      && s'.de.current == ZERO_DECODE && s'.ex.current == ZERO_EXECUTE
      && s'.pc.current == Plus(d.ex.current.pcDe, d.pcDisp)
      && s'.pc.enabled && s'.de.enabled && s'.ex.enabled
    ensures !s'.pcR ==>
      && s'.de.current == d.de.next.(instr := imem.WordAt(d.pc.current), pcDe := d.pc.current)
      && s'.ex.current == d.ex.next && s'.pc.current == Plus(d.pc.current, 4)
      && s'.huRs1 == SelectBypass(s', HasRs1(d.instrType), Rs1(s'.ex.current.instr))
      && s'.huRs2 == SelectBypass(s', HasRs2(d.instrType), Rs2(s'.ex.current.instr))
      && s'.pc.enabled == s'.de.enabled == s'.ex.enabled
      && s'.pc.enabled == (s'.me.current.memToReg || (!s'.huRs1.MEM? && !s'.huRs2.MEM?))
  {
    FetchFields(d, imem);
  }

  /** A tick that neither faults nor begins the shutdown, field by field. */
  lemma TickFields(s: Pipe, imem: InstrMem, s': Pipe)
    requires Running(s) && Tick(s, imem) == Ok(s') && !s'.lastFlag
    ensures DoMemory(s).Ok? && DoDecode(DoExecute(DoMemory(s).value)).Ok?
    ensures var m := DoMemory(s).value; var x := DoExecute(m); var e := DoDecode(x).value.ex.next;
      && s'.wb.current == s'.wb.next == m.wb.next && s'.me.current == s'.me.next == x.me.next && s'.dmem == m.dmem
      && s'.regs == WriteReg(s.regs, s.wb.current.wbWe, s.wb.current.wbA, s.wb.current.wbD)
      && s'.pcR == x.pcR && s'.me.enabled && s'.wb.enabled && s'.pc.current % 4 == 0
      && (s'.pcR ==>
            && s'.de.current == ZERO_DECODE && s'.ex.current == ZERO_EXECUTE
            && s'.pc.current == Plus(s.ex.current.pcDe, x.pcDisp)
            && s'.pc.enabled && s'.de.enabled && s'.ex.enabled)
      && (!s'.pcR ==>
            && s'.de.current == DecodeState(false, s.pc.current, imem.WordAt(s.pc.current))
            && s'.ex.current == e && s'.pc.current == Plus(s.pc.current, 4)
            && s'.huRs1 == SelectBypass(s', HasRs1(TypeOf(Opcode(e.instr))), Rs1(e.instr))
            && s'.huRs2 == SelectBypass(s', HasRs2(TypeOf(Opcode(e.instr))), Rs2(e.instr))
            && s'.pc.enabled == s'.de.enabled == s'.ex.enabled
            && s'.pc.enabled == (s'.me.current.memToReg || (!s'.huRs1.MEM? && !s'.huRs2.MEM?)))
  {
    hide Alu, Immediate, Decode, LoadValue, StoreValue, TypeOf, Cmp, DoFetch, HazardUnitTick, TickRegisters;
    var m := DoMemory(s).value;
    var x := DoExecute(m);
    var d := DoDecode(x).value;
    var h := HazardUnitTick(TickRegisters(DoFetch(d, imem).value));
    ClockEdge(d, imem, h);
  }

  /** A successful memory stage completes the instruction in MEM: its result waits in WB. */
  lemma MemoryCompletes(s: Pipe, m: Pipe)
    requires DoMemory(s) == Ok(m)
    ensures var w := s.wb.current; var n := m.wb.next;
      Drain(s) == Ok((WriteReg(WriteReg(s.regs, w.wbWe, w.wbA, w.wbD), n.wbWe, n.wbA, n.wbD), m.dmem.bytes))
  {
    hide LoadValue, StoreValue;
  }

  /** The memory stage leaves EX and ID alone. */
  lemma MemoryKeeps(s: Pipe, m: Pipe)
    requires DoMemory(s) == Ok(m)
    ensures m.ex == s.ex && m.de == s.de && m.pc == s.pc
  {
  }

  /** And it offers the older results to EX as they were before. */
  lemma MemoryForwards(s: Pipe, m: Pipe)
    requires DoMemory(s) == Ok(m)
    ensures m == s.(dmem := m.dmem, bpMem := s.me.current.aluRes, wb := m.wb) && m.wb.current == s.wb.current
  {
    hide LoadValue, StoreValue;
  }

  /** A bubble leaving EX has no effect and takes no jump. */
  lemma BubbleExecutes(m: Pipe, regs: Regs, mem: Bytes)
    requires Bubble(m.ex.current)
    ensures var x := DoExecute(m); var n := x.me.next;
      && !x.pcR && !n.memWe && n.wbA == 0 && n.storeMode == 0 && n.aluRes == 0
      && Complete(regs, mem, n) == Ok((regs, mem))
  {
  }

  /** A tick completes the instruction in MEM and leaves the one from EX to be completed. */
  lemma DrainAdvances(s: Pipe, imem: InstrMem, s': Pipe)
    requires Running(s) && Tick(s, imem) == Ok(s') && !s'.lastFlag
    ensures Drain(s).Ok? && DoMemory(s).Ok?
    ensures Drain(s') == Complete(Drain(s).value.0, Drain(s).value.1, DoExecute(DoMemory(s).value).me.next)
  {
    hide Alu, Immediate, Decode, LoadValue, StoreValue, TypeOf, Cmp, DoFetch, HazardUnitTick, TickRegisters, SelectBypass, Access;
    TickFields(s, imem, s');
    MemoryCompletes(s, DoMemory(s).value);
  }

  /** Instructions whose format names no rs1 or no rs2 do not depend on that operand. */
  lemma DecodeFacts(w: Word)
    requires Decode(w).Ok?
    ensures var c := Decode(w).value; var t := TypeOf(Opcode(w));
      && c.wbWe == Writes(w) && c.memToReg == !IsLoad(w) && c.memWe == (Opcode(w) == STORE)
      && (!HasRs1(t) ==> Opcode(w) == LUI || Opcode(w) == AUIPC || (c.aluOp == AluNop && c.cmpControl == CmpNop))
      && (!ReadsRs2(t) ==> c.cmpControl == CmpNop && !c.memWe && (c.aluSrc2 || c.aluOp == AluNop))
  {
  }

  /** What execution computes from its operands, completed, is the meaning of the word on them. */
  lemma ExecutedIsStepOn(a: Arch, e: ExecuteState, srcA: Word, rs2v: Word)
    requires e.pcDe == a.pc && !e.vDe && e.funct3 == Funct3(e.instr)
    ensures var pc := if Redirects(e, srcA, rs2v) then Plus(a.pc, Displacement(e, srcA, rs2v)) else Plus(a.pc, 4);
      var r := Complete(a.regs, a.mem, Executed(e, srcA, rs2v));
      StepOn(a, e.instr, e.c, srcA, rs2v) ==
        if pc % 4 != 0 then Err(Misaligned) else if r.Ok? then Ok(Arch(pc, r.value.0, r.value.1)) else Err(r.fault)
  {
    hide Immediate, LoadValue, StoreValue, Plus, Alu, Cmp, Rd, Funct3, Access;
  }

  /** Operands that the format does not name do not matter. */
  lemma OperandsMatter(a: Arch, w: Word, c: Control, srcA: Word, rs2v: Word)
    requires Decode(w) == Ok(c)
    requires HasRs1(TypeOf(Opcode(w))) || Opcode(w) == LUI || Opcode(w) == AUIPC ==> srcA == FirstOperand(a, w)
    requires ReadsRs2(TypeOf(Opcode(w))) ==> rs2v == a.regs[Rs2(w)]
    ensures StepOn(a, w, c, srcA, rs2v) == StepOn(a, w, c, FirstOperand(a, w), a.regs[Rs2(w)])
  {
    hide Immediate, Decode, LoadValue, TypeOf, Plus, BitAnd, BitOr, BitXor, ShiftLeft,
      ShiftRight, ShiftRightArithmetic, Signed, Minus, Opcode, Rd, Rs1, Rs2, Funct3, ReadsRs2, HasRs1, FirstOperand, StoreValue;
    DecodeFacts(w);
  }

  /** The sequential meaning of the instruction in EX, from the registers and memory that the older
      instructions leave behind. */
  lemma ExecuteIsStep(s: Pipe, t: Stages, imem: InstrMem, m: Pipe)
    requires Inv(s, t, imem) && t.ex.Some? && DoMemory(s) == Ok(m) && Drain(s).Ok?
    ensures var (regs, mem) := Drain(s).value; var x := DoExecute(m);
      var pc := if x.pcR then Plus(t.ex.value, x.pcDisp) else Plus(t.ex.value, 4);
      var r := Complete(regs, mem, x.me.next);
      Step(Arch(t.ex.value, regs, mem), imem) ==
        if pc % 4 != 0 then Err(Misaligned) else if r.Ok? then Ok(Arch(pc, r.value.0, r.value.1)) else Err(r.fault)
  {
    hide Immediate, Decode, DoMemory, Drain, ReadsRs2, HasRs1, TypeOf, Plus, Opcode, Rs1, Rs2, Funct3, Complete, StepOn,
      Executed, Displacement, Redirects, DecodeOk, MemoryOk, WriteBackOk;
    MemoryForwards(s, m);
    var a := Arch(t.ex.value, Drain(s).value.0, Drain(s).value.1);
    var e := s.ex.current;
    ExecutedIsStepOn(a, e, ForwardA(s), ForwardB(s));
    OperandsMatter(a, e.instr, e.c, ForwardA(s), ForwardB(s));
  }

  /** The bypass selected for a register gives its value after the instructions in MEM and WB complete,
      unless the register's number matches one that is not written or is still being loaded. */
  lemma BypassIsExact(s: Pipe, r: RegNum)
    requires Drain(s).Ok?
    requires r != 0 && r == s.me.current.wbA ==> s.me.current.wbWe && s.me.current.memToReg
    requires r != 0 && r != s.me.current.wbA && r == s.wb.current.wbA ==> s.wb.current.wbWe
    ensures Mux3(SelectBypass(s, true, r), s.regs[r], s.me.current.aluRes, s.wb.current.wbD) == Drain(s).value.0[r]
  {
    hide LoadValue, StoreValue, Access;
  }

  /** What MEM and WB take from the stages before them. */
  lemma BackFields(s: Pipe, imem: InstrMem, s': Pipe)
    requires Running(s) && Tick(s, imem) == Ok(s') && !s'.lastFlag
    ensures s'.wb.current.wbA == s.me.current.wbA && s'.wb.current.wbWe == s.me.current.wbWe
    ensures var e := s.ex.current;
      s'.me.current.wbA == Rd(e.instr) && s'.me.current.wbWe == e.c.wbWe && s'.me.current.memToReg == e.c.memToReg
    ensures Bubble(s.ex.current) ==>
      !s'.pcR && !s'.me.current.memWe && s'.me.current.storeMode == 0 && s'.me.current.aluRes == 0
  {
    hide Alu, Immediate, Decode, LoadValue, StoreValue, TypeOf, DoFetch, HazardUnitTick, TickRegisters, SelectBypass,
      WriteReg, Tick, Opcode, Rs1, Rs2, Funct3;
    TickFields(s, imem, s');
    if Bubble(s.ex.current) {
      BubbleExecutes(DoMemory(s).value, s.regs, map[]);
    }
  }

  /** What ID and EX take when nothing is flushed. */
  lemma FrontFields(s: Pipe, imem: InstrMem, s': Pipe)
    requires Running(s) && Tick(s, imem) == Ok(s') && !s'.lastFlag && !s'.pcR
    ensures var d := s.de.current; var e := s'.ex.current;
      && e.instr == d.instr && e.pcDe == d.pcDe && e.funct3 == Funct3(d.instr) && !e.vDe && Decode(d.instr) == Ok(e.c)
      && e.data1 == (if Opcode(d.instr) == LUI then 0 else if Opcode(d.instr) == AUIPC then d.pcDe else s'.regs[Rs1(d.instr)])
      && e.data2 == s'.regs[Rs2(d.instr)]
  {
    hide Alu, Immediate, Decode, LoadValue, StoreValue, TypeOf, DoFetch, HazardUnitTick, TickRegisters, SelectBypass,
      WriteReg, Tick, Opcode, Rs1, Rs2, Funct3;
    TickFields(s, imem, s');
  }

  lemma MemoryAdvances(s: Pipe, t: Stages, imem: InstrMem, s': Pipe)
    requires ExecuteOk(s, t, imem) && (t.ex.None? ==> !s'.pcR)
    requires s'.me.current.wbA == Rd(s.ex.current.instr) && s'.me.current.wbWe == s.ex.current.c.wbWe
    requires s'.me.current.memToReg == s.ex.current.c.memToReg
    requires t.ex.None? ==> !s'.me.current.memWe && s'.me.current.storeMode == 0 && s'.me.current.aluRes == 0
    ensures MemoryOk(s', Advance(t, s, s'), imem)
  {
    assert Rd(0) == 0;
    if t.ex.Some? {
      DecodeFacts(s.ex.current.instr);
    }
    hide InstrMem.WordAt, Plus, Decode, Opcode, Rd, Funct3;
  }

  lemma WriteBackAdvances(s: Pipe, t: Stages, imem: InstrMem, s': Pipe)
    requires ExecuteOk(s, t, imem) && MemoryOk(s, t, imem) && (t.ex.None? && t.de.Some? ==> t.me.None?)
    requires s'.wb.current.wbA == s.me.current.wbA && s'.wb.current.wbWe == s.me.current.wbWe
    ensures WriteBackOk(s', Advance(t, s, s'), imem)
  {
    if t.me.Some? {
      assert Plus(Plus(t.me.value, 4), 4) == Plus(t.me.value, 8);
    }
    hide InstrMem.WordAt, Plus, Decode, Opcode, Rd, Funct3, Bubble;
  }

  lemma FrontAdvances(s: Pipe, t: Stages, imem: InstrMem, s': Pipe)
    requires DecodeOk(s, t, imem) && ExecuteOk(s, t, imem)
    requires s'.pcR ==> s'.de.current == ZERO_DECODE && s'.ex.current == ZERO_EXECUTE
    requires !s'.pcR ==>
      var d := s.de.current; var e := s'.ex.current;
      && s'.de.current == DecodeState(false, s.pc.current, imem.WordAt(s.pc.current))
      && s'.pc.current == Plus(s.pc.current, 4)
      && e.instr == d.instr && e.pcDe == d.pcDe && e.funct3 == Funct3(d.instr) && Decode(d.instr) == Ok(e.c)
    ensures DecodeOk(s', Advance(t, s, s'), imem) && ExecuteOk(s', Advance(t, s, s'), imem)
  {
    assert Decode(0) == Ok(Control(false, true, false, true, false, false, CmpNop, false, AluNop));
    assert Funct3(0) == 0;
    hide InstrMem.WordAt, Plus, Decode, Opcode, Rd, Funct3;
  }

  /** The latches after a tick hold what the stage occupancy says. */
  lemma LatchesAdvance(s: Pipe, t: Stages, imem: InstrMem, s': Pipe)
    requires Inv(s, t, imem) && Tick(s, imem) == Ok(s') && !s'.lastFlag
    ensures var t' := Advance(t, s, s');
      && DecodeOk(s', t', imem) && ExecuteOk(s', t', imem)
      && MemoryOk(s', t', imem) && WriteBackOk(s', t', imem) && (t'.ex.None? && t'.de.Some? ==> t'.me.None?)
      && !s'.de.current.vDe && !s'.ex.current.vDe
  {
    hide InstrMem.WordAt, Plus, Alu, Immediate, Decode, Cmp, WriteReg, Tick, DoMemory, DoExecute, DoDecode, Drain, OperandsOk,
      MemoryOk, WriteBackOk, DecodeOk, Opcode, Rd, Rs1, Rs2, Funct3, Bubble;
    TickFields(s, imem, s');
    BackFields(s, imem, s');
    if !s'.pcR {
      FrontFields(s, imem, s');
    }
    FrontAdvances(s, t, imem, s');
    MemoryAdvances(s, t, imem, s');
    WriteBackAdvances(s, t, imem, s');
  }

  /** In a hazard-free program an operand's register number only matches latches that will write it. */
  lemma MatchesAreWritten(s: Pipe, t: Stages, imem: InstrMem, r: RegNum)
    requires HazardFree(imem) && MemoryOk(s, t, imem) && WriteBackOk(s, t, imem) && t.ex.Some? && r != 0
    ensures Uses(imem.WordAt(t.ex.value), r) ==>
      && (r == s.me.current.wbA ==> s.me.current.wbWe && s.me.current.memToReg)
      && (r == s.wb.current.wbA ==> s.wb.current.wbWe)
    ensures Compares(imem.WordAt(t.ex.value), r) && r == s.me.current.wbA ==> s.me.current.memToReg
  {
    hide InstrMem.WordAt, Plus, Opcode, Rd, Rs1, Rs2;
    if t.me.Some? {
      assert Writes(imem.WordAt(t.me.value)) || !Uses(imem.WordAt(Plus(t.me.value, 4)), Rd(imem.WordAt(t.me.value)));
    }
    if t.wb.Some? {
      assert Writes(imem.WordAt(t.wb.value)) || !Uses(imem.WordAt(Plus(t.wb.value, 8)), Rd(imem.WordAt(t.wb.value)));
    }
  }

  /** With the bypasses the hazard unit selects, EX sees the architectural operands and nothing stalls. */
  lemma OperandsExact(s: Pipe, t: Stages, imem: InstrMem)
    requires HazardFree(imem) && ExecuteOk(s, t, imem) && MemoryOk(s, t, imem) && WriteBackOk(s, t, imem)
    requires t.ex.Some?
    requires var w := s.ex.current.instr; var ty := TypeOf(Opcode(w));
      && s.huRs1 == SelectBypass(s, HasRs1(ty), Rs1(w)) && s.huRs2 == SelectBypass(s, HasRs2(ty), Rs2(w))
      && s.ex.current.data1 ==
         (if Opcode(w) == LUI then 0 else if Opcode(w) == AUIPC then t.ex.value else s.regs[Rs1(w)])
      && s.ex.current.data2 == s.regs[Rs2(w)]
    ensures OperandsOk(s, t)
    ensures s.me.current.memToReg || (!s.huRs1.MEM? && !s.huRs2.MEM?)
  {
    hide InstrMem.WordAt, Plus, Alu, Decode, WriteReg, Drain, MemoryOk, WriteBackOk, Opcode, Rd, Rs1, Rs2, Funct3, HazardFree;
    var w := s.ex.current.instr;
    if Rs1(w) != 0 { MatchesAreWritten(s, t, imem, Rs1(w)); }
    if Rs2(w) != 0 { MatchesAreWritten(s, t, imem, Rs2(w)); }
    if Drain(s).Ok? && HasRs1(TypeOf(Opcode(w))) { BypassIsExact(s, Rs1(w)); }
    if Drain(s).Ok? && ReadsRs2(TypeOf(Opcode(w))) { BypassIsExact(s, Rs2(w)); }
  }

  /** A bubble in EX has no operands and stalls nothing. */
  lemma BubbleOperands(s: Pipe, t: Stages)
    requires t.ex.None?
    ensures OperandsOk(s, t)
    ensures SelectBypass(s, HasRs1(TypeOf(Opcode(0))), Rs1(0)) == SelectBypass(s, HasRs2(TypeOf(Opcode(0))), Rs2(0)) == REG
  {
  }

  /** Forwarding stays exact, and the hazard unit never stalls a hazard-free program. */
  lemma OperandsAdvance(s: Pipe, t: Stages, imem: InstrMem, s': Pipe)
    requires HazardFree(imem) && Inv(s, t, imem) && Tick(s, imem) == Ok(s') && !s'.lastFlag
    ensures OperandsOk(s', Advance(t, s, s'))
    ensures s'.pc.enabled && s'.de.enabled && s'.ex.enabled
  {
    hide InstrMem.WordAt, Plus, Alu, Immediate, Decode, Cmp, WriteReg, Tick, DoMemory, DoExecute, DoDecode, Drain, OperandsOk,
      MemoryOk, WriteBackOk, Opcode, Rd, Rs1, Rs2, Funct3, SelectBypass, HazardFree, TypeOf;
    var t' := Advance(t, s, s');
    TickFields(s, imem, s');
    LatchesAdvance(s, t, imem, s');
    if !s'.pcR && t'.ex.Some? {
      FrontFields(s, imem, s');
      OperandsExact(s', t', imem);
    } else {
      BubbleOperands(s', t');
    }
  }

  lemma Aligned(p: Word)
    ensures Plus(Plus(Plus(p, 4), 4), 4) % 4 == 0 ==> Plus(p, 4) % 4 == 0
  {
  }

  /** The simulation: a tick with a bubble in EX changes nothing a programmer sees; any other tick is
      one step of the sequential machine. */
  lemma Simulates(s: Pipe, t: Stages, imem: InstrMem, s': Pipe)
    requires HazardFree(imem) && Inv(s, t, imem) && Tick(s, imem) == Ok(s') && !s'.lastFlag
    ensures var t' := Advance(t, s, s');
      && Inv(s', t', imem) && Abstract(s, t).Ok?
      && Abstract(s', t') == if t.ex.None? then Abstract(s, t) else Step(Abstract(s, t).value, imem)
  {
    hide InstrMem.WordAt, Plus, Alu, Immediate, Decode, Cmp, WriteReg, Tick, DoDecode, OperandsOk, Complete, Drain, Step,
      MemoryOk, WriteBackOk, Opcode, Rd, Rs1, Rs2, Funct3, SelectBypass, HazardFree, TypeOf, DoMemory, DoExecute;
    TickFields(s, imem, s');
    LatchesAdvance(s, t, imem, s');
    OperandsAdvance(s, t, imem, s');
    DrainAdvances(s, imem, s');
    var m := DoMemory(s).value;
    var (regs, mem) := Drain(s).value;
    MemoryKeeps(s, m);
    if t.ex.None? {
      BubbleExecutes(m, regs, mem);
    } else {
      Aligned(t.ex.value);
      ExecuteIsStep(s, t, imem, m);
    }
  }

  // ----- Whole runs -----

  /** A run: the pipeline's state, where the instructions are, how many have left EX. */
  datatype Run = Run(s: Pipe, t: Stages, retired: nat)

  /** `n` ticks from reset; None once a tick faults or the fetch leaves the section. */
  function RunFor(start: Word, bytes: Bytes, imem: InstrMem, n: nat): Option<Run> {
    if n == 0 then Some(Run(Reset(start, bytes), EMPTY, 0))
    else
      match RunFor(start, bytes, imem, n - 1)
      case None => None
      case Some(r) => Clock(r, imem)
  }

  function Clock(r: Run, imem: InstrMem): Option<Run> {
    match Tick(r.s, imem)
    case Err(_) => None
    case Ok(s) =>
      if s.lastFlag then None
      else Some(Run(s, Advance(r.t, r.s, s), r.retired + if r.t.ex.Some? then 1 else 0))
  }

  /** After every run of ticks from reset, completing the instructions in MEM and WB gives exactly the
      registers, memory and next address of executing the retired instructions one at a time. */
  lemma {:induction false} Refinement(start: Word, bytes: Bytes, imem: InstrMem, n: nat)
    requires HazardFree(imem) && RunFor(start, bytes, imem, n).Some?
    ensures var r := RunFor(start, bytes, imem, n).value;
      && Inv(r.s, r.t, imem)
      && Abstract(r.s, r.t) == Steps(Arch(start, ZeroRegs(), bytes), imem, r.retired)
  {
    hide Tick, Inv, Abstract, Step, HazardFree, Advance;
    if n == 0 {
      ResetHolds(start, bytes, imem);
    } else {
      Refinement(start, bytes, imem, n - 1);
      var r := RunFor(start, bytes, imem, n - 1).value;
      Simulates(r.s, r.t, imem, Tick(r.s, imem).value);
    }
  }

  lemma ResetHolds(start: Word, bytes: Bytes, imem: InstrMem)
    ensures Inv(Reset(start, bytes), EMPTY, imem)
    ensures Abstract(Reset(start, bytes), EMPTY) == Ok(Arch(start, ZeroRegs(), bytes))
  {
  }

  /** Nothing is dropped or starved: `n` ticks retire at least a third of `n`, less the two that fill
      the pipeline. */
  lemma {:induction false} Throughput(start: Word, bytes: Bytes, imem: InstrMem, n: nat)
    requires HazardFree(imem) && RunFor(start, bytes, imem, n).Some?
    ensures var r := RunFor(start, bytes, imem, n).value;
      && n <= 3 * r.retired + (if r.t.ex.Some? then 2 else if r.t.de.Some? then 1 else 0)
      && (r.t.ex.Some? ==> r.t.de.Some?)
  {
    hide Tick, DecodeOk, MemoryOk, WriteBackOk, OperandsOk, HazardFree;
    if n != 0 {
      Throughput(start, bytes, imem, n - 1);
      Refinement(start, bytes, imem, n - 1);
      var r := RunFor(start, bytes, imem, n - 1).value;
      BackFields(r.s, imem, Tick(r.s, imem).value);
    }
  }

  /** The register file itself catches up: two ticks later it holds what `Drain` foresaw. */
  lemma RegisterFileCatchesUp(start: Word, bytes: Bytes, imem: InstrMem, n: nat)
    requires HazardFree(imem) && RunFor(start, bytes, imem, n + 2).Some?
    ensures RunFor(start, bytes, imem, n).Some?
    ensures var s := RunFor(start, bytes, imem, n).value.s;
      Drain(s).Ok? && RunFor(start, bytes, imem, n + 2).value.s.regs == Drain(s).value.0
  {
    hide Tick, Complete, WriteReg, DoDecode, DoExecute, DoMemory, HazardFree, DecodeOk, ExecuteOk, MemoryOk, WriteBackOk, OperandsOk;
    assert RunFor(start, bytes, imem, n + 1).Some?;
    var s := RunFor(start, bytes, imem, n).value.s;
    var s1 := RunFor(start, bytes, imem, n + 1).value.s;
    var s2 := RunFor(start, bytes, imem, n + 2).value.s;
    Refinement(start, bytes, imem, n);
    Refinement(start, bytes, imem, n + 1);
    TickFields(s, imem, s1);
    TickFields(s1, imem, s2);
    MemoryCompletes(s, DoMemory(s).value);
  }

  // ----- The condition is the right one -----

  /** The two states agree on which registers MEM and WB will write, and how. */
  predicate SameDestinations(s: Pipe, u: Pipe) {
    var m, n := s.me.current, u.me.current;
    && m.wbA == n.wbA && m.wbWe == n.wbWe && m.memToReg == n.memToReg && m.memWe == n.memWe
    && s.wb.current.wbA == u.wb.current.wbA && s.wb.current.wbWe == u.wb.current.wbWe
  }

  predicate BypassExact(s: Pipe, r: RegNum) {
    Drain(s).Ok? ==>
      Mux3(SelectBypass(s, true, r), s.regs[r], s.me.current.aluRes, s.wb.current.wbD) == Drain(s).value.0[r]
  }

  /** The hazard unit matches `r` with an instruction that will not write it, or only loads it now. */
  predicate Aliased(s: Pipe, r: RegNum) {
    && r != 0
    && if r == s.me.current.wbA then !s.me.current.wbWe || !s.me.current.memToReg
       else r == s.wb.current.wbA && !s.wb.current.wbWe
  }

  /** Whatever data is in flight, the bypass is exact; and only then. */
  lemma BypassExactIff(s: Pipe, r: RegNum)
    requires s.me.current.memWe ==> s.me.current.memToReg && !s.me.current.wbWe
    ensures !Aliased(s, r) <==> forall u: Pipe :: SameDestinations(s, u) ==> BypassExact(u, r)
  {
    if !Aliased(s, r) {
      forall u: Pipe | SameDestinations(s, u) ensures BypassExact(u, r) {
        if Drain(u).Ok? { BypassIsExact(u, r); }
      }
    } else {
      var u := s.(regs := ZeroRegs(), dmem := s.dmem.(bytes := map[]),
                  me := s.me.(current := s.me.current.(aluRes := 1, storeMode := 0)),
                  wb := s.wb.(current := s.wb.current.(wbD := if r == s.me.current.wbA then 0 else 1)));
      assert SameDestinations(s, u);
      assert !BypassExact(u, r);
    }
  }
}
