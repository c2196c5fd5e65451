/** The analysis as it runs: one walk over the blocks from last to first. */
module LivenessAnalyzer {
  import opened LiveGraph
  import opened LiveRanges
  import opened LivePositions

  /** All values are below `count`. */
  predicate Bounded(g: Graph, count: nat) {
    && (forall b, k :: 0 <= b < |g| && 0 <= k < |g[b].body| ==> g[b].body[k].id < count)
    && (forall b, k, j :: 0 <= b < |g| && 0 <= k < |g[b].body| && 0 <= j < |g[b].body[k].inputs| ==> g[b].body[k].inputs[j] < count)
    && (forall b, k :: 0 <= b < |g| && 0 <= k < |g[b].phis| ==> g[b].phis[k].id < count)
    && (forall b, k, j :: 0 <= b < |g| && 0 <= k < |g[b].phis| && 0 <= j < |g[b].phis[k].inputs| ==> g[b].phis[k].inputs[j].0 < count)
  }

  lemma {:induction false} ResolveBounded(inputs: seq<(nat, nat)>, b: nat, count: nat)
    requires HasSource(inputs, b) && forall j :: 0 <= j < |inputs| ==> inputs[j].0 < count
    ensures Resolve(inputs, b) < count
  {
    if inputs[0].1 != b { ResolveBounded(inputs[1..], b, count); }
  }

  /** Some phi among the first `j` of successor `s` takes `v` when control comes from `b`. */
  predicate PhisTake(g: Graph, b: nat, s: nat, j: nat, v: nat)
    requires s < |g| && j <= |g[s].phis|
    requires forall l :: 0 <= l < |g[s].phis| ==> HasSource(g[s].phis[l].inputs, b)
  {
    exists l :: 0 <= l < j && Resolve(g[s].phis[l].inputs, b) == v
  }

  /** `v` is needed by one of the first `k` successors, or on the edge to it. */
  ghost predicate NeededBy(g: Graph, b: nat, k: nat, v: nat)
    requires Shaped(g) && b < |g| && k <= |g[b].succs|
  {
    exists l :: 0 <= l < k && (LiveIn(g, g[b].succs[l], v) || PhisTake(g, b, g[b].succs[l], |g[g[b].succs[l]].phis|, v))
  }

  lemma AllSuccessors(g: Graph, b: nat, v: nat)
    requires Shaped(g) && b < |g|
    ensures NeededBy(g, b, |g[b].succs|, v) <==> LiveOut(g, b, v)
  {
    hide LiveIn;
    if LiveOut(g, b, v) {
      if EdgeUse(g, b, v) {
        var k, j :| 0 <= k < |g[b].succs| && 0 <= j < |g[g[b].succs[k]].phis| && Resolve(g[g[b].succs[k]].phis[j].inputs, b) == v;
        assert PhisTake(g, b, g[b].succs[k], |g[g[b].succs[k]].phis|, v);
      } else {
        var s :| Edge(g, b, s) && LiveIn(g, s, v);
        var k :| 0 <= k < |g[b].succs| && g[b].succs[k] == s;
      }
    }
  }

  lemma NextSuccessor(g: Graph, b: nat, k: nat, v: nat)
    requires Shaped(g) && b < |g| && k < |g[b].succs|
    ensures var s := g[b].succs[k];
      NeededBy(g, b, k + 1, v) <==> NeededBy(g, b, k, v) || LiveIn(g, s, v) || PhisTake(g, b, s, |g[s].phis|, v)
    ensures !NeededBy(g, b, 0, v)
  {
    hide LiveIn, PhisTake;
  }

  class LivenessAnalyzer {
    const g: Graph
    const count: nat
    const numbers: array<nat>
    const blockRange: array<LiveRange>
    const liveIn: array<set<nat>>
    const ranges: array<seq<LiveRange>>
    var rangeBegin: nat

    constructor (g: Graph, count: nat)
      requires Strict(g) && Bounded(g, count)
      ensures Valid() && this.g == g && this.count == count && rangeBegin == 0
      ensures fresh(numbers) && fresh(blockRange) && fresh(liveIn) && fresh(ranges)
      ensures forall v :: 0 <= v < count ==> ranges[v] == []
    {
      this.g, this.count, rangeBegin := g, count, 0;
      numbers := new nat[count](_ => 0);
      blockRange := new LiveRange[|g|](_ => LiveRange(0, 0));
      liveIn := new set<nat>[|g|](_ => {});
      ranges := new seq<LiveRange>[count](_ => []);
    }

    ghost predicate Valid() {
      && Strict(g) && Bounded(g, count) && Shaped(g)
      && numbers.Length == count && ranges.Length == count && blockRange.Length == |g| && liveIn.Length == |g|
      && (ranges as object) != (liveIn as object) && (ranges as object) != (blockRange as object)
      && (ranges as object) != (numbers as object) && (liveIn as object) != (blockRange as object)
      && (liveIn as object) != (numbers as object) && (numbers as object) != (blockRange as object)
    }

    /** Numbers and block ranges are those of the first `b` blocks. */
    predicate Numbered(b: nat)
      requires Valid() && b <= |g|
      reads numbers, blockRange
    {
      && (forall c :: 0 <= c < b ==> blockRange[c] == LiveRange(Begin(g, c), Begin(g, c + 1)))
      && (forall c, k :: 0 <= c < b && 0 <= k < |g[c].body| ==> numbers[g[c].body[k].id] == Number(g, c, k))
      && (forall c, k :: 0 <= c < b && 0 <= k < |g[c].phis| ==> numbers[g[c].phis[k].id] == Begin(g, c))
    }

    /** Numbers the instructions of block `b`: phis all the same, the others two apart. */
    method OrderInstructions(b: nat) returns (rangeEnd: nat)
      requires Valid() && b < |g| && Numbered(b) && rangeBegin == Begin(g, b)
      modifies numbers
      ensures rangeEnd == Begin(g, b + 1)
      ensures forall c, k :: 0 <= c <= b && 0 <= k < |g[c].body| ==> numbers[g[c].body[k].id] == Number(g, c, k)
      ensures forall c, k :: 0 <= c <= b && 0 <= k < |g[c].phis| ==> numbers[g[c].phis[k].id] == Begin(g, c)
    {
      hide Strict, Shaped, Begin, Number;
      StrictShaped(g);
      NumberSteps(g, b);
      var range := rangeBegin;
      var j := 0;
      while j < |g[b].phis|
        invariant 0 <= j <= |g[b].phis|
        invariant forall c, k :: 0 <= c < b && 0 <= k < |g[c].body| ==> numbers[g[c].body[k].id] == Number(g, c, k)
        invariant forall c, k :: 0 <= c < b && 0 <= k < |g[c].phis| ==> numbers[g[c].phis[k].id] == Begin(g, c)
        invariant forall k :: 0 <= k < j ==> numbers[g[b].phis[k].id] == Begin(g, b)
      {
        numbers[g[b].phis[j].id] := range;
        j := j + 1;
      }
      var i := 0;
      while i < |g[b].body|
        invariant 0 <= i <= |g[b].body| && range == Begin(g, b) + STEP * i
        invariant forall c, k :: 0 <= c < b && 0 <= k < |g[c].body| ==> numbers[g[c].body[k].id] == Number(g, c, k)
        invariant forall c, k :: 0 <= c <= b && 0 <= k < |g[c].phis| ==> numbers[g[c].phis[k].id] == Begin(g, c)
        invariant forall k :: 0 <= k < i ==> numbers[g[b].body[k].id] == Number(g, b, k)
      {
        range := range + STEP;
        numbers[g[b].body[i].id] := range;
        i := i + 1;
      }
      rangeEnd := range + STEP;
    }

    method InitBlocksInfo()
      requires Valid() && rangeBegin == 0
      modifies this, numbers, blockRange
      ensures Numbered(|g|)
    {
      hide Strict, Shaped, Number, Bounded;
      var b := 0;
      BeginsAtZero(g);
      while b < |g|
        invariant 0 <= b <= |g| && Numbered(b) && rangeBegin == Begin(g, b)
      {
        var rangeEnd := OrderInstructions(b);
        blockRange[b] := LiveRange(rangeBegin, rangeEnd);
        rangeBegin := rangeEnd;
        b := b + 1;
      }
    }

    /** Adds a range to a value; the assertions of the source are this method's precondition. */
    method AddRangeTo(v: nat, r: LiveRange)
      requires v < ranges.Length && AddOk(ranges[v], r)
      modifies ranges
      ensures ranges[..] == old(ranges[..])[v := AddRange(old(ranges[v]), r)]
    {
      ranges[v] := AddRange(ranges[v], r);
    }

    method SetBeginOf(v: nat, begin: nat)
      requires v < ranges.Length && SetOk(ranges[v], begin)
      modifies ranges
      ensures ranges[..] == old(ranges[..])[v := SetBegin(old(ranges[v]), begin)]
    {
      ranges[v] := SetBegin(ranges[v], begin);
    }

    /** The live-in sets of the blocks from `x` on are right. */
    ghost predicate SetsDone(x: nat)
      requires Valid()
      reads liveIn
    {
      forall b, v: nat :: x <= b < |g| ==> (v in liveIn[b] <==> LiveIn(g, b, v)) && (v in liveIn[b] ==> v < count)
    }

    method CalculateInitialLiveSet(x: nat) returns (live: set<nat>)
      requires Valid() && x < |g| && SetsDone(x + 1)
      ensures forall v: nat :: (v in live <==> LiveOut(g, x, v)) && (v in live ==> v < count)
    {
      hide Strict, LiveIn, NeededBy, PhisTake, LiveOut;
      var succs := g[x].succs;
      live := {};
      var k := 0;
      forall v: nat ensures !NeededBy(g, x, 0, v) { NeededByNone(g, x, v); }
      while k < |succs|
        invariant 0 <= k <= |succs|
        invariant forall v: nat :: (v in live <==> NeededBy(g, x, k, v)) && (v in live ==> v < count)
      {
        var s := succs[k];
        ghost var before := live;
        live := live + liveIn[s];
        var phis := g[s].phis;
        var j := 0;
        forall v: nat ensures !PhisTake(g, x, s, 0, v) { PhiStep(g, x, s, 0, v); }
        while j < |phis|
          invariant 0 <= j <= |phis|
          invariant forall v: nat :: v in live <==> v in before || v in liveIn[s] || PhisTake(g, x, s, j, v)
          invariant forall v: nat :: v in live ==> v < count
        {
          ResolveBounded(phis[j].inputs, x, count);
          var j' := j + 1;
          forall v: nat ensures PhisTake(g, x, s, j', v) <==> PhisTake(g, x, s, j, v) || v == Resolve(phis[j].inputs, x) {
            PhiStep(g, x, s, j, v);
          }
          live := live + {Resolve(phis[j].inputs, x)};
          j := j + 1;
        }
        k := k + 1;
        forall v: nat ensures NeededBy(g, x, k, v) <==> v in live { NextSuccessor(g, x, k - 1, v); }
      }
      forall v: nat ensures v in live <==> LiveOut(g, x, v) { AllSuccessors(g, x, v); }
    }

    /** The ranges cover exactly what the walk has seen. */
    ghost predicate AllMatch(x: nat, i: nat)
      requires Valid() && x < |g|
      reads ranges
    {
      forall v :: 0 <= v < count ==> Matches(g, x, i, v, ranges[v])
    }

    ghost predicate AllSince(x: nat)
      requires Valid()
      reads ranges
    {
      forall v :: 0 <= v < count ==> MatchesSince(g, x, v, ranges[v])
    }

    /** Values live at the end of the block are live in all of it so far. */
    method AddBlockRange(x: nat, live: set<nat>)
      requires Valid() && x < |g| && Numbered(|g|) && AllSince(x + 1)
      requires forall v: nat :: (v in live <==> LiveOut(g, x, v)) && (v in live ==> v < count)
      modifies ranges
      ensures AllMatch(x, |g[x].body|)
    {
      hide Strict, Shaped, LiveOut, Matches, MatchesSince, AddRange, AddOk;
      StrictShaped(g);
      var todo := live;
      ghost var n := |g[x].body|;
      while todo != {}
        invariant todo <= live
        invariant forall v :: 0 <= v < count && v in live && v !in todo ==> Matches(g, x, n, v, ranges[v])
        invariant forall v :: 0 <= v < count && (v !in live || v in todo) ==> MatchesSince(g, x + 1, v, ranges[v])
        decreases |todo|
      {
        var v :| v in todo;
        WholeBlock(g, x, v, ranges[v]);
        AddRangeTo(v, blockRange[x]);
        todo := todo - {v};
      }
      forall v | 0 <= v < count ensures Matches(g, x, n, v, ranges[v]) {
        if v !in live { WholeBlock(g, x, v, ranges[v]); }
      }
    }

    /** One instruction, from its definition to its operands. */
    method VisitInstruction(x: nat, i: nat, live: set<nat>) returns (live': set<nat>)
      requires Valid() && x < |g| && i < |g[x].body| && Numbered(|g|) && AllMatch(x, i + 1)
      requires forall v: nat :: (v in live <==> LiveFrom(g, x, i + 1, v)) && (v in live ==> v < count)
      modifies ranges
      ensures AllMatch(x, i)
      ensures forall v: nat :: (v in live' <==> LiveFrom(g, x, i, v)) && (v in live' ==> v < count)
    {
      hide Strict, LiveFrom, Matches, AddRange, AddOk, SetBegin, SetOk;
      StrictShaped(g);
      var instr := g[x].body[i];
      var liveNumber := numbers[instr.id];
      assert blockRange[x] == LiveRange(Begin(g, x), Begin(g, x + 1)) && liveNumber == Number(g, x, i);
      DefStep(g, x, i, instr.id, ranges[instr.id]);
      SetBeginOf(instr.id, liveNumber);
      live' := live - {instr.id};
      var k := 0;
      while k < |instr.inputs|
        invariant 0 <= k <= |instr.inputs|
        invariant forall v: nat :: v in live' <==> (v in live && v != instr.id) || v in instr.inputs[..k]
        invariant forall v: nat :: v in live' ==> v < count
        invariant forall v :: 0 <= v < count && (v == instr.id || v in instr.inputs[..k]) ==> Matches(g, x, i, v, ranges[v])
        invariant forall v :: 0 <= v < count && v != instr.id && v !in instr.inputs[..k] ==> Matches(g, x, i + 1, v, ranges[v])
      {
        var input := instr.inputs[k];
        live' := live' + {input};
        if input == instr.id || input in instr.inputs[..k] {
          UseAgain(g, x, i, input, ranges[input]);
        } else {
          UseStep(g, x, i, input, ranges[input]);
        }
        AddRangeTo(input, LiveRange(blockRange[x].begin, liveNumber));
        assert instr.inputs[..k + 1] == instr.inputs[..k] + [input];
        k := k + 1;
      }
      assert instr.inputs[..k] == instr.inputs;
      forall v | 0 <= v < count ensures Matches(g, x, i, v, ranges[v]) {
        if v != instr.id && v !in instr.inputs { OtherStep(g, x, i, v, ranges[v]); }
      }
      forall v: nat ensures v in live' <==> LiveFrom(g, x, i, v) { LiveFromStep(g, x, i, v); }
    }

    /** Phis are no longer live before their block. */
    method RemovePhis(x: nat, live: set<nat>) returns (live': set<nat>)
      requires Valid() && x < |g|
      ensures forall v: nat :: v in live' <==> v in live && !DefPhi(g, x, v)
    {
      hide Strict;
      live' := live;
      var j := 0;
      while j < |g[x].phis|
        invariant 0 <= j <= |g[x].phis|
        invariant forall v: nat :: v in live' <==> v in live && forall l :: 0 <= l < j ==> g[x].phis[l].id != v
      {
        live' := live' - {g[x].phis[j].id};
        j := j + 1;
      }
    }

    method CalculateLiveRanges(x: nat)
      requires Valid() && x < |g| && Numbered(|g|) && SetsDone(x + 1) && AllSince(x + 1)
      modifies ranges, liveIn
      ensures SetsDone(x) && AllSince(x)
    {
      hide Strict, LiveFrom, Matches, MatchesSince, LiveOut, LiveIn, DefPhi;
      var live := CalculateInitialLiveSet(x);
      AddBlockRange(x, live);
      var i := |g[x].body|;
      ghost var n := i;
      forall v: nat ensures LiveFrom(g, x, n, v) <==> LiveOut(g, x, v) { LiveFromEnd(g, x, v); }
      while i > 0
        invariant 0 <= i <= n && AllMatch(x, i) && Numbered(|g|) && SetsDone(x + 1)
        invariant forall v: nat :: (v in live <==> LiveFrom(g, x, i, v)) && (v in live ==> v < count)
      {
        i := i - 1;
        live := VisitInstruction(x, i, live);
      }
      ghost var top := live;
      live := RemovePhis(x, live);
      forall v: nat ensures (v in live <==> LiveIn(g, x, v)) && (v in live ==> v < count) {
        LiveInEquation(g, x, v);
        assert v in live ==> v in top;
      }
      liveIn[x] := live;
      forall v | 0 <= v < count ensures MatchesSince(g, x, v, ranges[v]) { BlockDone(g, x, v, ranges[v]); }
    }

    /** The live-in sets are liveness by paths; every value's ranges are ordered, apart, and cover exactly the
        positions between its definition and a need for it. No assertion fails on the way. */
    method Run()
      requires Valid() && rangeBegin == 0 && forall v :: 0 <= v < count ==> ranges[v] == []
      modifies this, numbers, blockRange, liveIn, ranges
      ensures Numbered(|g|)
      ensures forall b, v: nat :: 0 <= b < |g| ==> (v in liveIn[b] <==> LiveIn(g, b, v))
      ensures forall v :: 0 <= v < count ==> Ordered(ranges[v])
      ensures forall v, p: nat :: 0 <= v < count ==> (Covers(ranges[v], p) <==> LiveSince(g, 0, v, p))
    {
      hide Strict, LiveIn, MatchesSince, LiveSince, Covers;
      InitBlocksInfo();
      var x := |g|;
      forall v | 0 <= v < count ensures MatchesSince(g, x, v, ranges[v]) { NothingSeen(g, v); }
      while x > 0
        invariant 0 <= x <= |g| && Numbered(|g|) && SetsDone(x) && AllSince(x)
      {
        x := x - 1;
        CalculateLiveRanges(x);
      }
      forall v | 0 <= v < count ensures Ordered(ranges[v]) && forall p: nat :: Covers(ranges[v], p) <==> LiveSince(g, 0, v, p) {
        MatchesMeans(g, v, ranges[v]);
      }
    }
  }

  lemma LiveFromEnd(g: Graph, b: nat, v: nat)
    requires Shaped(g) && b < |g|
    ensures LiveFrom(g, b, |g[b].body|, v) <==> LiveOut(g, b, v)
  {
    hide LiveOut;
  }

  lemma NothingSeen(g: Graph, v: nat)
    requires Shaped(g)
    ensures MatchesSince(g, |g|, v, [])
  {
  }

  lemma MatchesMeans(g: Graph, v: nat, rs: seq<LiveRange>)
    requires Shaped(g) && MatchesSince(g, 0, v, rs)
    ensures Ordered(rs) && forall p: nat :: Covers(rs, p) <==> LiveSince(g, 0, v, p)
  {
  }

  lemma NeededByNone(g: Graph, b: nat, v: nat)
    requires Shaped(g) && b < |g|
    ensures !NeededBy(g, b, 0, v)
  {
  }

  lemma PhiStep(g: Graph, b: nat, s: nat, j: nat, v: nat)
    requires s < |g| && j <= |g[s].phis| && forall l :: 0 <= l < |g[s].phis| ==> HasSource(g[s].phis[l].inputs, b)
    ensures !PhisTake(g, b, s, 0, v)
    ensures j < |g[s].phis| ==>
      (PhisTake(g, b, s, j + 1, v) <==> PhisTake(g, b, s, j, v) || v == Resolve(g[s].phis[j].inputs, b))
  {
  }

  lemma NumberSteps(g: Graph, b: nat)
    requires b < |g|
    ensures forall i: nat :: Number(g, b, i) == Begin(g, b) + 2 * (i + 1)
    ensures Begin(g, b + 1) == Begin(g, b) + 2 * (|g[b].body| + 1)
  {
  }

  lemma BeginsAtZero(g: Graph)
    ensures Begin(g, 0) == 0
  {
  }
}
