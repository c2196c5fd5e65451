/** The allocator as it runs: a free-register bit map, an active list, and a location per interval. */
module LinearScanRegAlloc {
  import opened LinearScan

  class RegMap {
    const regsCount: nat
    var bits: seq<bool>

    constructor (regsCount: nat)
      requires regsCount <= BITS
      ensures this.regsCount == regsCount && bits == seq(BITS, _ => true)
    {
      this.regsCount := regsCount;
      bits := seq(BITS, _ => true);
    }

    method IsFull() returns (full: bool)
      ensures full == Full(bits, regsCount)
    {
      full := forall r :: 0 <= r < |bits| ==> bits[r] == (r >= regsCount);
    }

    /** Takes the lowest free register; a bit above the last register is left alone. */
    method AcquireReg() returns (reg: int)
      modifies this
      ensures reg == Lowest(old(bits))
      ensures bits == if 0 <= reg < regsCount then old(bits)[reg := false] else old(bits)
    {
      reg := Lowest(bits);
      if 0 <= reg < regsCount {
        bits := bits[reg := false];
      }
    }

    method ReleaseReg(reg: nat)
      requires reg < |bits|
      modifies this
      ensures bits == old(bits)[reg := true]
    {
      bits := bits[reg := true];
    }
  }

  class Allocator {
    const spans: seq<Span>
    const regMap: RegMap
    const locs: array<Location>
    var slotCounter: nat
    var active: seq<nat>
    ghost var takers: set<nat>

    constructor (spans: seq<Span>, regsCount: nat)
      requires regsCount <= BITS
      ensures Valid(0) && fresh(regMap) && fresh(locs) && At() == Initial(|spans|)
      ensures this.spans == spans && regMap.regsCount == regsCount
    {
      this.spans := spans;
      regMap := new RegMap(regsCount);
      locs := new Location[|spans|](_ => Nowhere);
      slotCounter, active, takers := 0, [], {};
      new;
      assert At() == Initial(|spans|);
    }

    ghost function At(): Alloc
      reads this, regMap, locs
    {
      Alloc(active, regMap.bits, slotCounter, locs[..], takers)
    }

    ghost predicate Valid(k: nat)
      reads this, regMap, locs
    {
      Inv(spans, regMap.regsCount, At(), k)
    }

    /** Releases from the front while the front has ended. */
    method ExpireOldIntervals(i: nat)
      requires Valid(i) && i < |spans|
      modifies this`active, regMap
      ensures Valid(i) && At() == Expire(spans, regMap.regsCount, old(At()), i, spans[i].begin)
    {
      hide Inv;
      ghost var regs, st := regMap.regsCount, At();
      while active != []
        invariant Valid(i)
        invariant Expire(spans, regs, st, i, spans[i].begin) == Expire(spans, regs, At(), i, spans[i].begin)
        decreases |active|
      {
        ActiveHolds(spans, regs, At(), i, 0);
        ActiveIn(spans, regs, At(), i);
        ghost var before := At();
        var first := active[0];
        if spans[first].end > spans[i].begin { return; }
        ReleasedInv(spans, regs, before, i);
        regMap.ReleaseReg(locs[first].r);
        active := active[1..];
        assert At() == Released(before);
      }
    }

    method SpillToStack(i: nat) returns (previous: Location)
      requires i < locs.Length
      modifies this`slotCounter, locs
      ensures previous == old(locs[i]) && slotCounter == old(slotCounter) + 1
      ensures locs[..] == old(locs[..])[i := Stack(old(slotCounter))]
    {
      previous := locs[i];
      locs[i] := Stack(slotCounter);
      slotCounter := slotCounter + 1;
    }

    method SpillAtInterval(i: nat)
      requires Valid(i) && i < |spans| && active != []
      modifies this, locs
      ensures Valid(i + 1) && old(active)[|old(active)| - 1] < |spans|
      ensures At() == Spill(spans, old(At()), i)
      ensures var last := old(active)[|old(active)| - 1];
        && slotCounter == old(slotCounter) + 1 && regMap.bits == old(regMap.bits)
        && if spans[last].end < spans[i].end
           then locs[..] == old(locs[..])[i := Stack(old(slotCounter))] && active == old(active)
           else locs[..] == old(locs[..])[last := Stack(old(slotCounter))][i := old(locs[..])[last]]
                && active == old(active)[..|old(active)| - 1]
    {
      hide Inv;
      ghost var st := At();
      ActiveIn(spans, regMap.regsCount, st, i);
      SpillInv(spans, regMap.regsCount, st, i);
      var spilled := active[|active| - 1];
      if spans[spilled].end < spans[i].end {
        var _ := SpillToStack(i);
        assert At() == Kept(st, i);
      } else {
        var reg := SpillToStack(spilled);
        locs[i] := reg;
        active := active[..|active| - 1];
        takers := takers + {i};
        assert At() == Taken(st, i);
      }
    }

    /** Inserts before the first active interval that does not end earlier. */
    method AddActiveInterval(i: nat)
      requires i < |spans| && Sorted(spans, active)
      modifies this`active
      ensures var p := Place(spans, old(active), spans[i].end); active == old(active)[..p] + [i] + old(active)[p..]
    {
      var p := 0;
      while p < |active| && !(spans[i].end <= spans[active[p]].end)
        invariant p <= |active|
        invariant Place(spans, active, spans[i].end) == p + Place(spans, active[p..], spans[i].end)
      {
        p := p + 1;
      }
      active := active[..p] + [i] + active[p..];
    }

    method AssignToReg(i: nat)
      requires i < locs.Length && 0 <= Lowest(regMap.bits) < regMap.regsCount
      modifies regMap, locs
      ensures var r := Lowest(old(regMap.bits));
        regMap.bits == old(regMap.bits)[r := false] && locs[..] == old(locs[..])[i := Register(r)]
    {
      var reg := regMap.AcquireReg();
      locs[i] := Register(reg);
    }

    /** Visits the intervals in the order given; stops when there is no interval to spill. */
    method AllocateAndAssignRegs() returns (ok: bool)
      requires At() == Initial(|spans|) && Valid(0)
      modifies this, regMap, locs
      ensures Run(spans, regMap.regsCount, |spans|) == if ok then Done(At()) else NoVictim
    {
      hide Inv, Full, Run, Visit, Shape;
      ghost var regs := regMap.regsCount;
      RegsFit(spans, regs, At(), 0);
      RunBegins(spans, regs);
      var i := 0;
      while i < |spans|
        invariant i <= |spans| && Valid(i) && Run(spans, regs, i) == Done(At())
      {
        ghost var st := At();
        RunStep(spans, regs, i);
        ExpireOldIntervals(i);
        ghost var e := At();
        var full := regMap.IsFull();
        if full {
          if active == [] {
            VisitSpills(spans, regs, st, i);
            RunStays(spans, regs, i + 1, |spans|);
            return false;
          }
          VisitSpills(spans, regs, st, i);
          SpillAtInterval(i);
        } else {
          LowestFree(spans, regs, e, i);
          VisitAssigns(spans, regs, st, i);
          AssignInv(spans, regs, e, i, Lowest(e.bits));
          AssignToReg(i);
          AddActiveInterval(i);
          assert At() == Assign(spans, e, i, Lowest(e.bits));
        }
        i := i + 1;
      }
      ok := true;
    }
  }

  lemma RegsFit(spans: seq<Span>, regs: nat, st: Alloc, k: nat)
    requires Inv(spans, regs, st, k)
    ensures regs <= BITS && |st.locs| == |spans| && Sorted(spans, st.active)
  {
  }

  lemma RunBegins(spans: seq<Span>, regs: nat)
    requires regs <= BITS
    ensures Run(spans, regs, 0) == Done(Initial(|spans|))
  {
  }

  lemma RunStep(spans: seq<Span>, regs: nat, k: nat)
    requires regs <= BITS && k < |spans| && Run(spans, regs, k).Done?
    ensures Run(spans, regs, k + 1) == Visit(spans, regs, Run(spans, regs, k).st, k)
  {
  }

  lemma {:induction false} RunStays(spans: seq<Span>, regs: nat, k: nat, n: nat)
    requires regs <= BITS && k <= n <= |spans| && Run(spans, regs, k).NoVictim?
    ensures Run(spans, regs, n).NoVictim?
  {
    if k < n { RunStays(spans, regs, k, n - 1); }
  }

  lemma VisitSpills(spans: seq<Span>, regs: nat, st: Alloc, k: nat)
    requires Inv(spans, regs, st, k) && k < |spans|
    requires Full(Expire(spans, regs, st, k, spans[k].begin).bits, regs)
    ensures var e := Expire(spans, regs, st, k, spans[k].begin);
      if e.active == [] then Visit(spans, regs, st, k).NoVictim?
      else e.active[|e.active| - 1] < |spans| == |e.locs| && Visit(spans, regs, st, k) == Done(Spill(spans, e, k))
  {
    hide Full;
  }

  lemma VisitAssigns(spans: seq<Span>, regs: nat, st: Alloc, k: nat)
    requires Inv(spans, regs, st, k) && k < |spans|
    requires !Full(Expire(spans, regs, st, k, spans[k].begin).bits, regs)
    ensures var e := Expire(spans, regs, st, k, spans[k].begin);
      |e.locs| == |spans| && Sorted(spans, e.active) && 0 <= Lowest(e.bits) < |e.bits|
      && Visit(spans, regs, st, k) == Done(Assign(spans, e, k, Lowest(e.bits)))
  {
    hide Full;
    LowestFree(spans, regs, Expire(spans, regs, st, k, spans[k].begin), k);
  }
}
