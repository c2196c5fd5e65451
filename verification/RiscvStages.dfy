/** The pipeline's state as a value, and each stage as a function on it: the
    specification that the imperative pipeline is proved against and that the
    refinement proof reasons about. */
module RiscvStages {
  import opened RiscvInstruction
  import opened Wrappers

  /** A clocked register: `next` becomes `current` on a tick unless disabled. */
  datatype Latch<T> = Latch(current: T, next: T, enabled: bool) {
    function Tick(): Latch<T> { if enabled then this.(current := next) else this }
    function Clear(zero: T): Latch<T> { this.(current := zero, next := zero) }
  }

  datatype DecodeState = DecodeState(vDe: bool, pcDe: Word, instr: Word)
  datatype ExecuteState = ExecuteState(
    funct3: nat, c: Control, vDe: bool, data1: Word, data2: Word, pcDe: Word, instr: Word)
  datatype MemoryState = MemoryState(
    memWe: bool, memToReg: bool, wbWe: bool, jmpCond: bool, storeMode: nat,
    writeData: Word, aluRes: Word, wbA: RegNum)
  datatype WriteBackState = WriteBackState(wbWe: bool, wbD: Word, wbA: RegNum)

  const ZERO_CONTROL := Control(false, false, false, false, false, false, CmpNop, false, AluNop)
  const ZERO_DECODE := DecodeState(false, 0, 0)
  const ZERO_EXECUTE := ExecuteState(0, ZERO_CONTROL, false, 0, 0, 0, 0)
  const ZERO_MEMORY := MemoryState(false, false, false, false, 0, 0, 0, 0)
  const ZERO_WRITE_BACK := WriteBackState(false, 0, 0)

  datatype Bypass = REG | MEM | WB

  type Byte = b: int | 0 <= b < 256
  type Bytes = map<Word, Byte>

  function ByteAt(m: Bytes, a: Word): Byte { if a in m then m[a] else 0 }

  const DATA_BYTES := 16384

  /** A store of funct3 0, 1 or 2 writes 1, 2 or 4 little-endian bytes; other modes write nothing. */
  function StoreValue(m: Bytes, mode: nat, a: Word, v: Word): Bytes {
    var b0 := m[a := v % 256];
    var b1 := b0[Plus(a, 1) := v / 256 % 256];
    if mode == 0 then b0
    else if mode == 1 then b1
    else if mode == 2 then b1[Plus(a, 2) := v / 0x1_0000 % 256][Plus(a, 3) := v / 0x100_0000]
    else m
  }

  function LoadValue(m: Bytes, mode: nat, a: Word): Result<Word> {
    var b := ByteAt(m, a);
    var half := b + 256 * ByteAt(m, Plus(a, 1));
    if a > DATA_BYTES then Err(BadDataAddress)
    else if mode == 0 then Ok(if b >= 0x80 then b + 0xffff_ff00 else b)
    else if mode == 1 then Ok(if half >= 0x8000 then half + 0xffff_0000 else half)
    else if mode == 2 then Ok(half + 0x1_0000 * ByteAt(m, Plus(a, 2)) + 0x100_0000 * ByteAt(m, Plus(a, 3)))
    else if mode == 4 then Ok(b)
    else if mode == 5 then Ok(half)
    else Err(BadLoadMode)
  }

  /** The data memory unit with the inputs it last latched. */
  datatype DataMem = DataMem(bytes: Bytes, storeMode: nat, writeEnable: bool, address: Word, writeData: Word) {
    function GetData(): Result<Word> { LoadValue(bytes, storeMode, address) }

    function Tick(): Result<DataMem> {
      if writeEnable then
        if address > DATA_BYTES then Err(BadDataAddress)
        else Ok(this.(bytes := StoreValue(bytes, storeMode, address, writeData)))
      else
        var _ :- GetData();
        Ok(this)
    }
  }

  /** Instruction memory and the bounds of the section loaded into it. */
  datatype InstrMem = InstrMem(memory: seq<Word>, start: Word, end: Word) {
    function WordAt(address: Word): Word {
      if address / 4 < |memory| then memory[address / 4] else 0
    }

    predicate OutOfSection(pc: Word) { pc < start || pc >= end }
  }

  type Regs = s: seq<Word> | |s| == 32 witness seq(32, _ => 0)

  function ZeroRegs(): (r: Regs)
    ensures forall i :: 0 <= i < 32 ==> r[i] == 0
  {
    seq(32, _ => 0)
  }

  function WriteReg(regs: Regs, we: bool, a: RegNum, d: Word): Regs
  {
    if we && a != 0 then regs[a := d] else regs
  }

  datatype Pipe = Pipe(
    pc: Latch<Word>, de: Latch<DecodeState>, ex: Latch<ExecuteState>,
    me: Latch<MemoryState>, wb: Latch<WriteBackState>,
    regs: Regs, dmem: DataMem, instrType: InstrType,
    bpMem: Word, pcDisp: Word, pcR: bool, huRs1: Bypass, huRs2: Bypass,
    lastFlag: bool, lastCounter: int, ticks: nat)

  function Reset(start: Word, bytes: Bytes): Pipe {
    Pipe(Latch(start, start, true), Latch(ZERO_DECODE, ZERO_DECODE, true), Latch(ZERO_EXECUTE, ZERO_EXECUTE, true),
         Latch(ZERO_MEMORY, ZERO_MEMORY, true), Latch(ZERO_WRITE_BACK, ZERO_WRITE_BACK, true),
         ZeroRegs(), DataMem(bytes, 0, false, 0, 0), Unknown,
         0, 0, false, REG, REG, false, 0, 0)
  }

  function Mux3(b: Bypass, r: Word, m: Word, w: Word): Word {
    match b case REG => r case MEM => m case WB => w
  }

  function DoMemory(s: Pipe): Result<Pipe> {
    var m := s.me.current;
    var dmem :-
      if !m.memToReg || m.memWe
      then s.dmem.(storeMode := m.storeMode, writeEnable := m.memWe, address := m.aluRes, writeData := m.writeData).Tick()
      else Ok(s.dmem);
    var data :- dmem.GetData();
    Ok(s.(dmem := dmem, bpMem := m.aluRes,
          wb := s.wb.(next := WriteBackState(m.wbWe, if m.memToReg then m.aluRes else data, m.wbA))))
  }

  /** What EX hands to MEM. */
  function Executed(e: ExecuteState, srcA: Word, rs2v: Word): MemoryState {
    var aluRes := Alu(e.c.aluOp, srcA, if e.c.aluSrc2 then Immediate(e.instr) else rs2v);
    MemoryState(e.c.memWe && !e.vDe, e.c.memToReg, e.c.wbWe && !e.vDe, e.c.jmpCond, e.funct3, rs2v,
                if e.c.jmpCond then Plus(e.pcDe, 4) else aluRes, Rd(e.instr))
  }

  /** How far a taken jump goes; JALR too is relative to its own address. */
  function Displacement(e: ExecuteState, srcA: Word, rs2v: Word): Word {
    var imm := Immediate(e.instr);
    var aluRes := Alu(e.c.aluOp, srcA, if e.c.aluSrc2 then imm else rs2v);
    if e.c.isJalr then aluRes - aluRes % 2 else imm
  }

  predicate Redirects(e: ExecuteState, srcA: Word, rs2v: Word) {
    e.c.jmpCond || (Cmp(e.c.cmpControl, srcA, rs2v) && e.c.brnCond)
  }

  function DoExecute(s: Pipe): Pipe {
    var e := s.ex.current;
    var srcA := Mux3(s.huRs1, e.data1, s.bpMem, s.wb.current.wbD);
    var rs2v := Mux3(s.huRs2, e.data2, s.bpMem, s.wb.current.wbD);
    var pcR := Redirects(e, srcA, rs2v);
    s.(pcDisp := Displacement(e, srcA, rs2v), pcR := pcR, me := s.me.(next := Executed(e, srcA, rs2v)),
       de := s.de.(next := s.de.next.(vDe := pcR)))
  }

  function DoDecode(s: Pipe): Result<Pipe> {
    var d := s.de.current;
    var regs := WriteReg(s.regs, s.wb.current.wbWe, s.wb.current.wbA, s.wb.current.wbD);
    var c :- Decode(d.instr);
    var opcode := Opcode(d.instr);
    var data1 := if opcode == LUI then 0 else if opcode == AUIPC then d.pcDe else regs[Rs1(d.instr)];
    Ok(s.(regs := regs, instrType := TypeOf(opcode),
          ex := s.ex.(next := ExecuteState(Funct3(d.instr), c, s.pcR || d.vDe, data1, regs[Rs2(d.instr)],
                                           d.pcDe, d.instr))))
  }

  /** The first fetch outside the section starts the shutdown countdown. */
  function BeginShutdown(s: Pipe, imem: InstrMem): Result<Pipe> {
    if !s.lastFlag && imem.OutOfSection(s.pc.current) && !(s.ex.next.c.jmpCond || s.ex.next.c.brnCond) then
      if s.me.current.jmpCond then
        Ok(s.(lastFlag := true, lastCounter := 1, pc := s.pc.(enabled := false), de := s.de.(enabled := false),
              ex := s.ex.(enabled := false), me := s.me.(enabled := false)))
      else if !s.pcR then
        Ok(s.(lastFlag := true, lastCounter := 3, pc := s.pc.(enabled := false),
              de := s.de.(enabled := false).Clear(ZERO_DECODE)))
      else Err(OutOfSection)
    else Ok(s)
  }

  function DoFetch(s: Pipe, imem: InstrMem): Result<Pipe> {
    var t :- BeginShutdown(s, imem);
    var next := if t.pcR then Plus(t.ex.current.pcDe, t.pcDisp) else Plus(t.pc.current, 4);
    if next % 4 != 0 then Err(Misaligned)
    else if t.lastFlag && t.lastCounter == 0 then Err(OutOfSection)
    else Ok(t.(pc := t.pc.(next := next),
               de := t.de.(next := t.de.next.(instr := imem.WordAt(t.pc.current), pcDe := t.pc.current)),
               lastCounter := if t.lastFlag then t.lastCounter - 1 else t.lastCounter))
  }

  function TickRegisters(s: Pipe): Pipe {
    var me := if s.pc.enabled then s.me else s.me.Clear(ZERO_MEMORY);
    s.(me := me.Tick(), de := s.de.Tick(), ex := s.ex.Tick(), wb := s.wb.Tick(), pc := s.pc.Tick())
  }

  /** Where a source register that the instruction type reads is taken from. */
  function SelectBypass(s: Pipe, used: bool, r: RegNum): Bypass {
    if used && r != 0 then
      if r == s.me.current.wbA then MEM
      else if r == s.wb.current.wbA then WB
      else REG
    else REG
  }

  function HazardUnitTick(s: Pipe): Pipe {
    if s.pcR then s.(de := s.de.Clear(ZERO_DECODE), ex := s.ex.Clear(ZERO_EXECUTE))
    else
      var w := s.ex.current.instr;
      var hu1 := SelectBypass(s, HasRs1(s.instrType), Rs1(w));
      var hu2 := SelectBypass(s, HasRs2(s.instrType), Rs2(w));
      var run := s.me.current.memToReg || (!hu1.MEM? && !hu2.MEM?);
      s.(huRs1 := hu1, huRs2 := hu2, pc := s.pc.(enabled := run), de := s.de.(enabled := run),
         ex := s.ex.(enabled := run))
  }

  /** One clock cycle. */
  function Tick(s: Pipe, imem: InstrMem): Result<Pipe> {
    var m :- DoMemory(s);
    var d :- DoDecode(DoExecute(m));
    var f :- DoFetch(d, imem);
    var h := HazardUnitTick(TickRegisters(f));
    Ok(h.(ticks := h.ticks + 1))
  }
}
