/** The simulator's objects, updated in place. Every stage method is proved to move the snapshot of
    the whole pipeline as the stage function of the same name says, faults included. */
module RiscvPipeline {
  import opened RiscvInstruction
  import opened Wrappers
  import opened RiscvStages

  class Register<T> {
    var current: T
    var next: T
    var enabled: bool

    constructor (zero: T)
      ensures Snapshot() == Latch(zero, zero, true)
    {
      current, next, enabled := zero, zero, true;
    }

    ghost function Snapshot(): Latch<T>
      reads this
    {
      Latch(current, next, enabled)
    }

    method Tick()
      modifies this
      ensures Snapshot() == old(Snapshot()).Tick()
    {
      if enabled {
        current := next;
      }
    }

    method Clear(zero: T)
      modifies this
      ensures Snapshot() == old(Snapshot()).Clear(zero)
    {
      current := zero;
      next := zero;
    }
  }

  class RegFile {
    const regs: array<Word>
    var readData1: Word
    var readData2: Word

    constructor ()
      ensures fresh(regs) && regs.Length == 32 && regs[..] == ZeroRegs()
    {
      regs := new Word[32](_ => 0);
      readData1, readData2 := 0, 0;
    }

    /** Writes before it reads, so a reader in the same cycle sees the new value; x0 stays 0. */
    method Tick(address1: RegNum, address2: RegNum, address3: RegNum, writeEnable3: bool, writeData3: Word)
      requires regs.Length == 32
      modifies this, regs
      ensures regs[..] == WriteReg(old(regs[..]), writeEnable3, address3, writeData3)
      ensures readData1 == regs[address1] && readData2 == regs[address2]
    {
      if writeEnable3 && address3 != 0 {
        regs[address3] := writeData3;
      }
      readData1 := regs[address1];
      readData2 := regs[address2];
    }
  }

  class DataMemUnit {
    var storeMode: nat
    var writeEnable: bool
    var address: Word
    var writeData: Word
    var memory: Bytes

    constructor (data: Bytes)
      ensures Snapshot() == DataMem(data, 0, false, 0, 0)
    {
      storeMode, writeEnable, address, writeData, memory := 0, false, 0, 0, data;
    }

    ghost function Snapshot(): DataMem
      reads this
    {
      DataMem(memory, storeMode, writeEnable, address, writeData)
    }

    method Tick() returns (fault: Option<Fault>)
      modifies this
      ensures old(Snapshot()).Tick() == if fault.None? then Ok(Snapshot()) else Err(fault.value)
    {
      if writeEnable {
        if address > DATA_BYTES {
          return Some(BadDataAddress);
        }
        StoreValue();
      } else {
        var _, f := GetData();
        return f;
      }
      return None;
    }

    method GetData() returns (data: Word, fault: Option<Fault>)
      ensures Snapshot().GetData() == if fault.None? then Ok(data) else Err(fault.value)
    {
      match LoadValue(memory, storeMode, address)
      case Ok(d) => return d, None;
      case Err(f) => return 0, Some(f);
    }

    /** Writes the bytes one at a time, lowest address first. */
    method StoreValue()
      modifies this`memory
      ensures memory == RiscvStages.StoreValue(old(memory), storeMode, address, writeData)
    {
      var bytes := if storeMode == 0 then 1 else if storeMode == 1 then 2 else if storeMode == 2 then 4 else 0;
      if bytes >= 1 {
        memory := memory[address := writeData % 256];
      }
      if bytes >= 2 {
        memory := memory[Plus(address, 1) := writeData / 256 % 256];
      }
      if bytes >= 4 {
        memory := memory[Plus(address, 2) := writeData / 0x1_0000 % 256];
        memory := memory[Plus(address, 3) := writeData / 0x100_0000];
      }
    }
  }

  class ControlUnit {
    var c: Control
    var instrType: InstrType

    constructor ()
      ensures instrType == Unknown
    {
      c, instrType := ZERO_CONTROL, Unknown;
    }

    method Tick(instr: Word) returns (fault: Option<Fault>)
      modifies this
      ensures Decode(instr) == if fault.None? then Ok(c) else Err(fault.value)
      ensures fault.None? ==> instrType == TypeOf(Opcode(instr))
    {
      var opcode, funct3, funct7 := Opcode(instr), Funct3(instr), Funct7(instr);
      if opcode == FENCE || (opcode == SYSTEM && funct3 != 0) {
        return Some(Unsupported);
      }
      if opcode == SYSTEM {
        return Some(Ebreak);
      }
      c := c.(isJalr := opcode == JALR, wbWe := opcode != STORE && opcode != BRANCH && opcode != SYSTEM,
              memWe := opcode == STORE);
      instrType := TypeOf(opcode);
      c := c.(aluSrc2 := instrType.IType? || instrType.SType? || instrType.UType?);
      if opcode == OP || opcode == OP_IMM {
        match if opcode == OP then RegisterAluOp(funct3, funct7) else ImmediateAluOp(funct3, funct7)
        case Ok(op) => c := c.(aluOp := op);
        case Err(f) => return Some(f);
      } else if instrType.UType? || opcode == JALR || opcode == LOAD || opcode == STORE {
        c := c.(aluOp := Add);
      } else {
        c := c.(aluOp := AluNop);
      }
      c := c.(brnCond := opcode == BRANCH, jmpCond := opcode == JAL || opcode == JALR, memToReg := opcode != LOAD);
      if opcode == BRANCH {
        match BranchCmp(funct3)
        case Ok(op) => c := c.(cmpControl := op);
        case Err(f) => return Some(f);
      } else {
        c := c.(cmpControl := CmpNop);
      }
      return None;
    }
  }

  class Pipeline {
    const programCounter: Register<Word>
    const decodeRegister: Register<DecodeState>
    const executeRegister: Register<ExecuteState>
    const memoryRegister: Register<MemoryState>
    const writeBackRegister: Register<WriteBackState>
    const regFile: RegFile
    const dataMemUnit: DataMemUnit
    const controlUnit: ControlUnit
    const instrMemUnit: InstrMem

    var bpMem: Word
    var pcDisp: Word
    var pcR: bool
    var huRs1: Bypass
    var huRs2: Bypass
    var lastFlag: bool
    var lastCounter: int
    var ticksCounter: nat

    ghost const Repr: set<object>

    constructor (imem: InstrMem, start: Word, data: Bytes)
      ensures Valid() && fresh(Repr) && instrMemUnit == imem
      ensures Snapshot() == Reset(start, data)
    {
      instrMemUnit := imem;
      programCounter := new Register(start);
      decodeRegister := new Register(ZERO_DECODE);
      executeRegister := new Register(ZERO_EXECUTE);
      memoryRegister := new Register(ZERO_MEMORY);
      writeBackRegister := new Register(ZERO_WRITE_BACK);
      var rf := new RegFile();
      regFile := rf;
      dataMemUnit := new DataMemUnit(data);
      controlUnit := new ControlUnit();
      bpMem, pcDisp, pcR, huRs1, huRs2 := 0, 0, false, REG, REG;
      lastFlag, lastCounter, ticksCounter := false, 0, 0;
      Repr := {this, programCounter, decodeRegister, executeRegister, memoryRegister, writeBackRegister,
               rf, rf.regs, dataMemUnit, controlUnit};
    }

    ghost predicate Valid()
      reads this
    {
      && regFile.regs.Length == 32
      && Repr == {this, programCounter, decodeRegister, executeRegister, memoryRegister, writeBackRegister,
                  regFile, regFile.regs, dataMemUnit, controlUnit}
    }

    ghost function Snapshot(): Pipe
      requires Valid()
      reads this, Repr
    {
      Pipe(programCounter.Snapshot(), decodeRegister.Snapshot(), executeRegister.Snapshot(),
           memoryRegister.Snapshot(), writeBackRegister.Snapshot(),
           regFile.regs[..], dataMemUnit.Snapshot(), controlUnit.instrType,
           bpMem, pcDisp, pcR, huRs1, huRs2, lastFlag, lastCounter, ticksCounter)
    }

    method DoMemory() returns (fault: Option<Fault>)
      requires Valid()
      modifies Repr
      ensures Valid()
      ensures RiscvStages.DoMemory(old(Snapshot())) == if fault.None? then Ok(Snapshot()) else Err(fault.value)
    {
      hide LoadValue, RiscvStages.StoreValue;
      var memory := memoryRegister.current;
      if !memory.memToReg || memory.memWe {
        dataMemUnit.storeMode := memory.storeMode;
        dataMemUnit.writeEnable := memory.memWe;
        dataMemUnit.address := memory.aluRes;
        dataMemUnit.writeData := memory.writeData;
        fault := dataMemUnit.Tick();
        if fault.Some? { return; }
      }
      var data;
      data, fault := dataMemUnit.GetData();
      if fault.Some? { return; }
      writeBackRegister.next :=
        WriteBackState(memory.wbWe, if memory.memToReg then memory.aluRes else data, memory.wbA);
      bpMem := memory.aluRes;
    }

    /** The arithmetic of the execute stage, on the operands the bypasses selected. */
    static method Compute(exec: ExecuteState, srcA: Word, rs2v: Word)
      returns (next: MemoryState, disp: Word, redirect: bool)
      ensures next == Executed(exec, srcA, rs2v)
      ensures disp == Displacement(exec, srcA, rs2v)
      ensures redirect <==> Redirects(exec, srcA, rs2v)
    {
      disp := Immediate(exec.instr);
      var srcB := if exec.c.aluSrc2 then disp else rs2v;
      var cmpRes := Cmp(exec.c.cmpControl, srcA, rs2v);
      redirect := exec.c.jmpCond || (cmpRes && exec.c.brnCond);
      next := MemoryState(
        exec.c.memWe && !exec.vDe, exec.c.memToReg, exec.c.wbWe && !exec.vDe, exec.c.jmpCond, exec.funct3, rs2v,
        Alu(exec.c.aluOp, srcA, srcB), Rd(exec.instr));
      if exec.c.isJalr {
        disp := next.aluRes;
        disp := disp - disp % 2;
      }
      if exec.c.jmpCond {
        next := next.(aluRes := Plus(exec.pcDe, 4));
      }
    }

    method DoExecute()
      requires Valid()
      modifies Repr
      ensures Valid()
      ensures Snapshot() == RiscvStages.DoExecute(old(Snapshot()))
    {
      hide Executed, Displacement, Redirects;
      var exec := executeRegister.current;
      var srcA := Mux3(huRs1, exec.data1, bpMem, writeBackRegister.current.wbD);
      var rs2v := Mux3(huRs2, exec.data2, bpMem, writeBackRegister.current.wbD);
      memoryRegister.next, pcDisp, pcR := Compute(exec, srcA, rs2v);
      decodeRegister.next := decodeRegister.next.(vDe := pcR);
    }

    method DoDecode() returns (fault: Option<Fault>)
      requires Valid()
      modifies Repr
      ensures Valid()
      ensures RiscvStages.DoDecode(old(Snapshot())) == if fault.None? then Ok(Snapshot()) else Err(fault.value)
    {
      hide Decode, Opcode, Rs1, Rs2, Funct3;
      var decode := decodeRegister.current;
      var wb := writeBackRegister.current;
      regFile.Tick(Rs1(decode.instr), Rs2(decode.instr), wb.wbA, wb.wbWe, wb.wbD);
      fault := controlUnit.Tick(decode.instr);
      if fault.Some? { return; }
      var data1 := if Opcode(decode.instr) == AUIPC then decode.pcDe else regFile.readData1;
      data1 := if Opcode(decode.instr) == LUI then 0 else data1;
      executeRegister.next := ExecuteState(
        Funct3(decode.instr), controlUnit.c, pcR || decode.vDe, data1, regFile.readData2, decode.pcDe, decode.instr);
    }

    /** A jump in MEM is the last instruction: everything before MEM stops. */
    method StopBehindJump()
      requires Valid()
      modifies Repr
      ensures Valid()
      ensures var s := old(Snapshot());
        Snapshot() == s.(lastFlag := true, lastCounter := 1, pc := s.pc.(enabled := false), de := s.de.(enabled := false),
                         ex := s.ex.(enabled := false), me := s.me.(enabled := false))
    {
      lastFlag := true;
      lastCounter := 1;
      programCounter.enabled := false;
      decodeRegister.enabled := false;
      executeRegister.enabled := false;
      memoryRegister.enabled := false;
    }

    /** Otherwise fetching stops and the instructions in flight finish. */
    method StopFetching()
      requires Valid()
      modifies Repr
      ensures Valid()
      ensures var s := old(Snapshot());
        Snapshot() == s.(lastFlag := true, lastCounter := 3, pc := s.pc.(enabled := false),
                         de := s.de.(enabled := false).Clear(ZERO_DECODE))
    {
      lastFlag := true;
      lastCounter := 3;
      programCounter.enabled := false;
      decodeRegister.enabled := false;
      decodeRegister.Clear(ZERO_DECODE);
    }

    method BeginShutdown() returns (fault: Option<Fault>)
      requires Valid()
      modifies Repr
      ensures Valid()
      ensures RiscvStages.BeginShutdown(old(Snapshot()), instrMemUnit) ==
        if fault.None? then Ok(Snapshot()) else Err(fault.value)
    {
      hide InstrMem.OutOfSection;
      if !lastFlag && instrMemUnit.OutOfSection(programCounter.current) &&
         !(executeRegister.next.c.jmpCond || executeRegister.next.c.brnCond) {
        if memoryRegister.current.jmpCond {
          StopBehindJump();
        } else if !pcR {
          StopFetching();
        } else {
          return Some(OutOfSection);
        }
      }
      fault := None;
    }

    method DoFetch() returns (fault: Option<Fault>)
      requires Valid()
      modifies Repr
      ensures Valid()
      ensures RiscvStages.DoFetch(old(Snapshot()), instrMemUnit) == if fault.None? then Ok(Snapshot()) else Err(fault.value)
    {
      hide Plus, InstrMem.WordAt, RiscvStages.BeginShutdown;
      fault := BeginShutdown();
      if fault.Some? { return; }
      var summand1 := if pcR then executeRegister.current.pcDe else programCounter.current;
      var summand2 := if pcR then pcDisp else 4;
      programCounter.next := Plus(summand1, summand2);
      if programCounter.next % 4 != 0 {
        return Some(Misaligned);
      }
      decodeRegister.next :=
        decodeRegister.next.(instr := instrMemUnit.WordAt(programCounter.current), pcDe := programCounter.current);
      if lastFlag {
        if lastCounter != 0 {
          lastCounter := lastCounter - 1;
        } else {
          return Some(OutOfSection);
        }
      }
    }

    method TickStateRegisters()
      requires Valid()
      modifies Repr
      ensures Valid()
      ensures var s := old(Snapshot());
        Snapshot() == s.(de := s.de.Tick(), ex := s.ex.Tick(), me := s.me.Tick(), wb := s.wb.Tick())
    {
      decodeRegister.Tick();
      executeRegister.Tick();
      memoryRegister.Tick();
      writeBackRegister.Tick();
    }

    /** Stops or restarts the stages before MEM. */
    method SetEnabled(enabled: bool)
      requires Valid()
      modifies Repr
      ensures Valid()
      ensures var s := old(Snapshot());
        Snapshot() == s.(pc := s.pc.(enabled := enabled), de := s.de.(enabled := enabled), ex := s.ex.(enabled := enabled))
    {
      programCounter.enabled := enabled;
      decodeRegister.enabled := enabled;
      executeRegister.enabled := enabled;
    }

    method SelectBypasses()
      requires Valid()
      modifies Repr
      ensures Valid()
      ensures var s := old(Snapshot()); var w := s.ex.current.instr;
        Snapshot() == s.(huRs1 := SelectBypass(s, HasRs1(s.instrType), Rs1(w)),
                         huRs2 := SelectBypass(s, HasRs2(s.instrType), Rs2(w)))
    {
      hide Rs1, Rs2, HasRs1, HasRs2;
      var instr := executeRegister.current.instr;
      var instrType := controlUnit.instrType;
      var memWbA, wbWbA := memoryRegister.current.wbA, writeBackRegister.current.wbA;
      huRs1 := Select(HasRs1(instrType), Rs1(instr), memWbA, wbWbA);
      huRs2 := Select(HasRs2(instrType), Rs2(instr), memWbA, wbWbA);
    }

    method HazardUnitTick()
      requires Valid()
      modifies Repr
      ensures Valid()
      ensures Snapshot() == RiscvStages.HazardUnitTick(old(Snapshot()))
    {
      hide Rs1, Rs2, HasRs1, HasRs2, SelectBypass;
      if pcR {
        decodeRegister.Clear(ZERO_DECODE);
        executeRegister.Clear(ZERO_EXECUTE);
      } else {
        SelectBypasses();
        var wasHalted := !memoryRegister.current.memToReg && (huRs1.MEM? || huRs2.MEM?);
        SetEnabled(!wasHalted);
      }
    }

    static method Select(used: bool, rs: RegNum, memWbA: RegNum, wbWbA: RegNum) returns (b: Bypass)
      ensures b == if used && rs != 0 && rs == memWbA then MEM else if used && rs != 0 && rs == wbWbA then WB else REG
    {
      if used && rs != 0 {
        if rs == memWbA {
          b := MEM;
        } else if rs == wbWbA {
          b := WB;
        } else {
          b := REG;
        }
      } else {
        b := REG;
      }
    }

    /** The clock edge: every register latches, then the hazard unit looks at the new state. */
    method ClockEdge()
      requires Valid()
      modifies Repr
      ensures Valid()
      ensures Snapshot() == RiscvStages.HazardUnitTick(TickRegisters(old(Snapshot())))
    {
      hide RiscvStages.HazardUnitTick;
      if !programCounter.enabled {
        memoryRegister.Clear(ZERO_MEMORY);
      }
      TickStateRegisters();
      programCounter.Tick();
      HazardUnitTick();
    }

    /** One clock cycle. */
    method Tick() returns (fault: Option<Fault>)
      requires Valid()
      modifies Repr
      ensures Valid()
      ensures RiscvStages.Tick(old(Snapshot()), instrMemUnit) == if fault.None? then Ok(Snapshot()) else Err(fault.value)
    {
      hide RiscvStages.DoMemory, RiscvStages.DoExecute, RiscvStages.DoDecode, RiscvStages.DoFetch,
        RiscvStages.HazardUnitTick, TickRegisters;
      fault := DoMemory();
      if fault.Some? { return; }
      DoExecute();
      fault := DoDecode();
      if fault.Some? { return; }
      fault := DoFetch();
      if fault.Some? { return; }
      ClockEdge();
      ticksCounter := ticksCounter + 1;
    }
  }
}
