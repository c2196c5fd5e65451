/** The run loop of the simulator, cut off after a number of ticks. */
module RiscvRun {
  import opened RiscvInstruction
  import opened Wrappers
  import opened RiscvStages
  import opened RiscvRefinement
  import opened RiscvPipeline

  /** Ticks until a fault, the end of the section or `n` ticks. If it got through all of them, the objects
      hold a state whose drained registers and memory are those of executing `retired` instructions one by one. */
  method RunPipeline(imem: InstrMem, start: Word, data: Bytes, n: nat) returns (p: Pipeline, done: nat)
    ensures p.Valid() && fresh(p.Repr) && done <= n
    ensures RunFor(start, data, imem, done).Some? && (done < n ==> RunFor(start, data, imem, done + 1).None?)
    ensures done == n ==>
      && RunFor(start, data, imem, n).Some? && RunFor(start, data, imem, n).value.s == p.Snapshot()
      && (HazardFree(imem) ==>
            var r := RunFor(start, data, imem, n).value;
            Abstract(p.Snapshot(), r.t) == Steps(Arch(start, ZeroRegs(), data), imem, r.retired))
  {
    hide Tick, Abstract, Steps, HazardFree, Inv, Reset;
    p := new Pipeline(imem, start, data);
    done := 0;
    while done < n
      invariant p.Valid() && fresh(p.Repr) && p.instrMemUnit == imem && done <= n
      invariant RunFor(start, data, imem, done).Some? && RunFor(start, data, imem, done).value.s == p.Snapshot()
    {
      var fault := p.Tick();
      if fault.Some? || p.lastFlag {
        return;
      }
      done := done + 1;
    }
    if HazardFree(imem) {
      Refinement(start, data, imem, n);
    }
  }
}
