/** When the pipeline goes on ticking: exactly which tick is the last, in terms of sequential execution and of
    the words fetched ahead of it. */
module RiscvProgress {
  import opened RiscvInstruction
  import opened Wrappers
  import opened RiscvStages
  import opened RiscvRefinement

  /** The memory unit can be read, as it is by every tick. */
  predicate DataReady(s: Pipe) { s.dmem.GetData().Ok? }

  predicate Jumps(w: Word) { Opcode(w) == JAL || Opcode(w) == JALR || Opcode(w) == BRANCH }

  /** How many instructions have been fetched beyond those retired. */
  function Filled(t: Stages): nat { if t.ex.Some? then 2 else if t.de.Some? then 1 else 0 }

  function Ahead(p: Word, k: nat): Word { Plus(p, (4 * k) % MODULUS) }

  /** Why a tick is the last: a retired instruction faults, or the next one goes to a misaligned address; the word
      to be decoded cannot be; or the fetch is outside the section and no jump or branch is being decoded. Words
      beyond a jump count, whether or not it is taken. */
  predicate Ends(a: Result<Arch>, filled: nat, imem: InstrMem) {
    || a.Err?
    || (filled == 2 && Step(a.value, imem) == Err(Misaligned))
    || (filled > 0 && Decode(imem.WordAt(Ahead(a.value.pc, filled - 1))).Err?)
    || ((Ahead(a.value.pc, filled) < imem.start || Ahead(a.value.pc, filled) >= imem.end)
        && !(filled > 0 && Jumps(imem.WordAt(Ahead(a.value.pc, filled - 1)))))
  }

  /** The memory stage faults exactly when the instruction in it does. */
  lemma MemoryFaultsIff(s: Pipe)
    requires DataReady(s)
    ensures DoMemory(s).Err? <==> Drain(s).Err?
    ensures DoMemory(s).Ok? ==> DataReady(DoMemory(s).value)
  {
    hide LoadValue, StoreValue, WriteReg;
    LoadAnyway(s.dmem);
  }

  /** Whether memory can be read depends on address and mode alone. */
  lemma LoadAnyway(d: DataMem)
    ensures forall bytes: Bytes :: LoadValue(bytes, d.storeMode, d.address).Ok? <==> d.GetData().Ok?
  {
  }

  lemma DecodeFaultsIff(x: Pipe)
    ensures DoDecode(x).Err? <==> Decode(x.de.current.instr).Err?
    ensures DoDecode(x).Ok? ==>
      var d := DoDecode(x).value;
      Decode(x.de.current.instr) == Ok(d.ex.next.c) && d == x.(regs := d.regs, instrType := d.instrType, ex := d.ex)
      && d.ex.current == x.ex.current
  {
    hide Decode, Opcode, TypeOf, WriteReg;
  }

  /** The fetch goes on exactly inside the section, or behind a jump or branch, and to an aligned address. */
  lemma FetchEndsIff(d: Pipe, imem: InstrMem)
    requires !d.lastFlag
    ensures var next := if d.pcR then Plus(d.ex.current.pcDe, d.pcDisp) else Plus(d.pc.current, 4);
      DoFetch(d, imem).Err? || DoFetch(d, imem).value.lastFlag <==>
      next % 4 != 0 || (imem.OutOfSection(d.pc.current) && !(d.ex.next.c.jmpCond || d.ex.next.c.brnCond))
  {
  }

  lemma JumpSignals(w: Word)
    requires Decode(w).Ok?
    ensures var c := Decode(w).value; (c.jmpCond || c.brnCond) == Jumps(w)
  {
  }

  lemma EdgeKeepsFlag(f: Pipe)
    ensures HazardUnitTick(TickRegisters(f)).lastFlag == f.lastFlag
    ensures HazardUnitTick(TickRegisters(f)).dmem == f.dmem
  {
    hide SelectBypass, TypeOf;
  }

  /** The stages whose fault ends the run. */
  lemma TickEndsIff(s: Pipe, imem: InstrMem)
    requires Running(s)
    ensures (Tick(s, imem).Err? || Tick(s, imem).value.lastFlag) <==>
      || DoMemory(s).Err?
      || var m := DoMemory(s).value; var x := DoExecute(m);
         Decode(s.de.current.instr).Err?
         || (if x.pcR then Plus(s.ex.current.pcDe, x.pcDisp) else Plus(s.pc.current, 4)) % 4 != 0
         || (imem.OutOfSection(s.pc.current)
             && !(Decode(s.de.current.instr).value.jmpCond || Decode(s.de.current.instr).value.brnCond))
  {
    hide Decode, Opcode, TypeOf, WriteReg, LoadValue, StoreValue, Executed, Displacement, Redirects, HazardUnitTick,
      TickRegisters, DoMemory, DoDecode, DoFetch, Plus;
    if DoMemory(s).Ok? {
      var m := DoMemory(s).value;
      MemoryKeepsMore(s, m);
      var x := DoExecute(m);
      DecodeFaultsIff(x);
      if DoDecode(x).Ok? {
        var d := DoDecode(x).value;
        FetchEndsIff(d, imem);
        if DoFetch(d, imem).Ok? { EdgeKeepsFlag(DoFetch(d, imem).value); }
      }
    }
  }

  lemma MemoryKeepsMore(s: Pipe, m: Pipe)
    requires DoMemory(s) == Ok(m)
    ensures m.ex == s.ex && m.de == s.de && m.pc == s.pc && m.lastFlag == s.lastFlag
  {
  }

  /** Where the stages are, counted from the next instruction to retire. */
  lemma StageAddresses(s: Pipe, t: Stages, imem: InstrMem)
    requires Inv(s, t, imem)
    ensures var p := NextPc(s, t);
      && s.pc.current == Ahead(p, Filled(t))
      && s.de.current.instr == (if Filled(t) > 0 then imem.WordAt(Ahead(p, Filled(t) - 1)) else 0)
      && (t.ex.Some? ==> s.ex.current.pcDe == p)
  {
    hide InstrMem.WordAt, OperandsOk, MemoryOk, WriteBackOk, Decode, Bubble;
    assert Plus(Plus(NextPc(s, t), 4), 4) == Plus(NextPc(s, t), 8);
  }

  /** The next tick is the last exactly when `Ends` says so. */
  lemma LastTickIff(s: Pipe, t: Stages, imem: InstrMem)
    requires Inv(s, t, imem) && DataReady(s) && s.pc.current % 4 == 0
    ensures (Tick(s, imem).Err? || Tick(s, imem).value.lastFlag) <==> Ends(Abstract(s, t), Filled(t), imem)
  {
    hide Decode, Opcode, TypeOf, WriteReg, DoMemory, DoExecute, Drain, Tick, Inv, Step, Plus, InstrMem.WordAt,
      DataReady, Jumps, Ahead;
    InvRunning(s, t, imem);
    TickEndsIff(s, imem);
    MemoryFaultsIff(s);
    StageAddresses(s, t, imem);
    NothingDecodes();
    AlignedNext(s.pc.current);
    if DoMemory(s).Ok? {
      RedirectMisaligned(s, t, imem);
      if Decode(s.de.current.instr).Ok? { JumpSignals(s.de.current.instr); }
    }
  }

  lemma InvRunning(s: Pipe, t: Stages, imem: InstrMem)
    requires Inv(s, t, imem)
    ensures Running(s)
  {
  }

  lemma NothingDecodes()
    ensures Decode(0).Ok? && !Jumps(0)
  {
  }

  lemma AlignedNext(p: Word)
    requires p % 4 == 0
    ensures Plus(p, 4) % 4 == 0
  {
  }

  /** The next address is misaligned exactly when the instruction in EX goes there in sequential execution too. */
  lemma RedirectMisaligned(s: Pipe, t: Stages, imem: InstrMem)
    requires Inv(s, t, imem) && DoMemory(s).Ok? && Drain(s).Ok? && s.pc.current % 4 == 0
    ensures var x := DoExecute(DoMemory(s).value);
      (if x.pcR then Plus(s.ex.current.pcDe, x.pcDisp) else Plus(s.pc.current, 4)) % 4 != 0 <==>
      t.ex.Some? && Step(Abstract(s, t).value, imem) == Err(Misaligned)
  {
    hide Decode, Opcode, TypeOf, WriteReg, DoMemory, DoExecute, Drain, Tick, Inv, Step, InstrMem.WordAt, Complete;
    var m := DoMemory(s).value;
    MemoryKeeps(s, m);
    StageAddresses(s, t, imem);
    if t.ex.Some? {
      ExecuteIsStep(s, t, imem, m);
      CompleteFaults(Drain(s).value.0, Drain(s).value.1, DoExecute(m).me.next);
    } else {
      BubbleInEx(s, t, imem);
      BubbleExecutes(m, s.regs, map[]);
    }
  }

  lemma BubbleInEx(s: Pipe, t: Stages, imem: InstrMem)
    requires Inv(s, t, imem) && t.ex.None?
    ensures Bubble(s.ex.current)
  {
  }

  lemma CompleteFaults(regs: Regs, mem: Bytes, m: MemoryState)
    ensures Complete(regs, mem, m) != Err(Misaligned)
  {
  }

  // ----- Whole runs -----

  /** Every run can be read from and stands at an aligned address. */
  lemma {:induction false} RunsReady(start: Word, bytes: Bytes, imem: InstrMem, n: nat)
    requires HazardFree(imem) && start % 4 == 0 && RunFor(start, bytes, imem, n).Some?
    ensures var r := RunFor(start, bytes, imem, n).value;
      DataReady(r.s) && r.s.pc.current % 4 == 0 && r.retired <= n
  {
    hide Tick, DataReady, HazardFree, Inv, Advance;
    if n == 0 {
      ResetReady(start, bytes);
    } else {
      RunsReady(start, bytes, imem, n - 1);
      Refinement(start, bytes, imem, n - 1);
      var r := RunFor(start, bytes, imem, n - 1).value;
      InvRunning(r.s, r.t, imem);
      ReadyAdvances(r.s, imem, Tick(r.s, imem).value);
    }
  }

  lemma ResetReady(start: Word, bytes: Bytes)
    ensures DataReady(Reset(start, bytes)) && Reset(start, bytes).pc.current == start
  {
  }

  lemma ReadyAdvances(s: Pipe, imem: InstrMem, s': Pipe)
    requires Running(s) && DataReady(s) && Tick(s, imem) == Ok(s') && !s'.lastFlag
    ensures DataReady(s') && s'.pc.current % 4 == 0
  {
    hide Decode, Opcode, TypeOf, WriteReg, LoadValue, StoreValue, Executed, Displacement, Redirects, DoMemory, DoDecode, Tick;
    TickFields(s, imem, s');
    MemoryFaultsIff(s);
  }

  /** Every run of a hazard-free program ends exactly where the sequential machine and the words ahead say. */
  lemma TickFaultsIff(start: Word, bytes: Bytes, imem: InstrMem, n: nat)
    requires HazardFree(imem) && start % 4 == 0 && RunFor(start, bytes, imem, n).Some?
    ensures var r := RunFor(start, bytes, imem, n).value;
      RunFor(start, bytes, imem, n + 1).None? <==>
      Ends(Steps(Arch(start, ZeroRegs(), bytes), imem, r.retired), Filled(r.t), imem)
  {
    hide Tick, DataReady, HazardFree, Inv, Advance, Ends, Step, Abstract;
    RunsReady(start, bytes, imem, n);
    Refinement(start, bytes, imem, n);
    var r := RunFor(start, bytes, imem, n).value;
    LastTickIff(r.s, r.t, imem);
  }

  /** The next two words after `p` are in the section as well, and what will be decoded can be. */
  predicate Clear(p: Word, imem: InstrMem) {
    && imem.start <= p < imem.end && imem.start <= Ahead(p, 1) < imem.end && imem.start <= Ahead(p, 2) < imem.end
    && Decode(imem.WordAt(p)).Ok? && Decode(imem.WordAt(Ahead(p, 1))).Ok?
  }

  /** Sequential execution gets through `n` instructions, over clear ground. */
  ghost predicate RunsClear(a: Arch, imem: InstrMem, n: nat) {
    forall k: nat :: k <= n ==> Steps(a, imem, k).Ok? && Clear(Steps(a, imem, k).value.pc, imem)
  }

  /** The pipeline does not stop before sequential execution does or leaves clear ground. */
  lemma {:induction false} Progress(start: Word, bytes: Bytes, imem: InstrMem, n: nat)
    requires HazardFree(imem) && start % 4 == 0 && RunsClear(Arch(start, ZeroRegs(), bytes), imem, n)
    ensures RunFor(start, bytes, imem, n).Some?
  {
    hide Tick, HazardFree, Step, Advance;
    if n > 0 {
      Progress(start, bytes, imem, n - 1);
      TickFaultsIff(start, bytes, imem, n - 1);
      RunsReady(start, bytes, imem, n - 1);
      var r := RunFor(start, bytes, imem, n - 1).value;
      var a := Arch(start, ZeroRegs(), bytes);
      assert Steps(a, imem, r.retired).Ok? && Steps(a, imem, r.retired + 1).Ok?;
      StepsOn(a, imem, r.retired);
      ClearGoesOn(Steps(a, imem, r.retired), Filled(r.t), imem);
    }
  }

  lemma StepsOn(a: Arch, imem: InstrMem, k: nat)
    requires Steps(a, imem, k).Ok?
    ensures Steps(a, imem, k + 1) == Step(Steps(a, imem, k).value, imem)
  {
    hide Step;
  }

  lemma ClearGoesOn(a: Result<Arch>, filled: nat, imem: InstrMem)
    requires a.Ok? && filled <= 2 && Step(a.value, imem).Ok? && Clear(a.value.pc, imem)
    ensures !Ends(a, filled, imem)
  {
    hide Step, Decode, Jumps, InstrMem.WordAt;
    assert Ahead(a.value.pc, 0) == a.value.pc;
  }

  /** Whatever number of ticks sequential execution stays on clear ground for, the pipeline makes them, and shows
      what executing its retired instructions, at least about a third as many, leaves. */
  lemma RefinementOfClearRuns(start: Word, bytes: Bytes, imem: InstrMem, n: nat)
    requires HazardFree(imem) && start % 4 == 0 && RunsClear(Arch(start, ZeroRegs(), bytes), imem, n)
    ensures RunFor(start, bytes, imem, n).Some?
    ensures var r := RunFor(start, bytes, imem, n).value;
      && Abstract(r.s, r.t) == Steps(Arch(start, ZeroRegs(), bytes), imem, r.retired)
      && n <= 3 * r.retired + Filled(r.t)
  {
    hide RunFor, RunsClear, HazardFree, Abstract, Steps;
    Progress(start, bytes, imem, n);
    Refinement(start, bytes, imem, n);
    Throughput(start, bytes, imem, n);
  }
}
