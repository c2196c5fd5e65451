/** Liveness and register allocation together: the intervals handed over are the hulls of the live ranges. */
module LiveAllocation {
  import opened LiveGraph
  import opened LiveRanges
  import opened LivePositions
  import opened LiveOrder
  import LinearScan
  import LinearScanRegAlloc
  import LinearScanTheorems
  import LivenessAnalyzer

  /** From the begin of the earliest range to the end of the latest. */
  function Hull(rs: seq<LiveRange>): LinearScan.Span {
    if rs == [] then LinearScan.Span(0, 0) else LinearScan.Span(Earliest(rs).begin, rs[0].end)
  }

  /** The hull is the least interval around the positions covered. */
  lemma HullLeast(rs: seq<LiveRange>, p: nat)
    requires Ordered(rs) && rs != []
    ensures Covers(rs, p) ==> Hull(rs).begin <= p < Hull(rs).end
    ensures Hull(rs).begin < Hull(rs).end && Covers(rs, Hull(rs).begin) && Covers(rs, Hull(rs).end - 1)
  {
    if Covers(rs, p) {
      var k :| 0 <= k < |rs| && rs[k].begin <= p < rs[k].end;
      assert k > 0 ==> rs[k].end < rs[0].begin;
      assert k < |rs| - 1 ==> rs[|rs| - 1].end < rs[k].begin;
    }
    assert rs[0].begin <= Hull(rs).end - 1 < rs[0].end;
    assert rs[|rs| - 1].begin <= Hull(rs).begin < rs[|rs| - 1].end;
    assert |rs| > 1 ==> rs[|rs| - 1].end < rs[0].begin;
  }

  /** Every value's ranges cover exactly its live positions, as the analysis leaves them. */
  ghost predicate Analysed(g: Graph, count: nat, ranges: seq<seq<LiveRange>>)
    requires Shaped(g)
  {
    && |ranges| == count
    && forall v :: 0 <= v < count ==> Ordered(ranges[v]) && forall p: nat :: Covers(ranges[v], p) <==> LiveSince(g, 0, v, p)
  }

  function Reversed<T>(s: seq<T>): seq<T> { seq(|s|, i requires 0 <= i < |s| => s[|s| - 1 - i]) }

  /** The values in the order in which the allocator visits them: the container iterates from its end. */
  function Visited(g: Graph): seq<Birth> { Reversed(Births(g, |g|)) }

  /** The intervals in that order. */
  predicate Hulls(births: seq<Birth>, ranges: seq<seq<LiveRange>>, spans: seq<LinearScan.Span>) {
    |spans| == |births| && forall i :: 0 <= i < |spans| ==> births[i].v < |ranges| && spans[i] == Hull(ranges[births[i].v])
  }

  lemma AnalysedShaped(g: Graph, count: nat, ranges: seq<seq<LiveRange>>, v: nat)
    requires Shaped(g) && Analysed(g, count, ranges) && v < count
    ensures |ranges| == count && Ordered(ranges[v]) && forall p: nat :: Covers(ranges[v], p) <==> LiveSince(g, 0, v, p)
  {
  }

  /** An interval that is not empty begins at its value's definition. */
  lemma BeginsAtBirth(g: Graph, count: nat, ranges: seq<seq<LiveRange>>, x: Birth)
    requires Strict(g) && Shaped(g) && Analysed(g, count, ranges) && Listed(g, x) && x.v < count
    ensures |ranges| == count && ranges[x.v] != [] ==> Hull(ranges[x.v]).begin == x.at
  {
    hide Strict, Analysed, LiveSince, Covers, Ordered, IsPhi, IsBody;
    AnalysedShaped(g, count, ranges, x.v);
    if ranges[x.v] != [] {
      var d: nat, k: nat :| d < |g| && (IsPhi(g, d, k, x) || IsBody(g, d, k, x));
      FirstCovered(g, x, d, k, ranges[x.v]);
    }
  }

  lemma VisitedBack(births: seq<Birth>)
    requires Rising(births)
    ensures |Reversed(births)| == |births|
    ensures forall i, j :: 0 <= i < j < |births| ==> Reversed(births)[i].at >= Reversed(births)[j].at
  {
  }

  /** So the intervals come with falling begins. */
  lemma HullsFall(g: Graph, count: nat, ranges: seq<seq<LiveRange>>, spans: seq<LinearScan.Span>)
    requires Strict(g) && Shaped(g) && Analysed(g, count, ranges) && Hulls(Visited(g), ranges, spans)
    ensures LinearScanTheorems.Falling(spans)
  {
    hide Strict, Analysed, Births, Hull, Listed;
    BirthsRise(g, |g|);
    VisitedBack(Births(g, |g|));
    var births := Visited(g);
    forall i | 0 <= i < |spans|
      ensures spans[i].begin < spans[i].end || spans[i] == LinearScan.Span(0, 0)
      ensures spans[i] != LinearScan.Span(0, 0) ==> spans[i].begin == births[i].at
      ensures spans[i].begin <= births[i].at
    {
      AnalysedSize(g, count, ranges);
      assert Listed(g, births[i]);
      BeginsAtBirth(g, count, ranges, births[i]);
      AnalysedShaped(g, count, ranges, births[i].v);
      HullKinds(ranges[births[i].v]);
    }
  }

  lemma AnalysedSize(g: Graph, count: nat, ranges: seq<seq<LiveRange>>)
    requires Shaped(g) && Analysed(g, count, ranges)
    ensures |ranges| == count
  {
  }

  lemma HullKinds(rs: seq<LiveRange>)
    requires Ordered(rs)
    ensures if rs == [] then Hull(rs) == LinearScan.Span(0, 0) else Hull(rs).begin < Hull(rs).end
  {
    if rs != [] { HullLeast(rs, 0); }
  }

  /** Values live at the same position never share a register or a stack slot. */
  lemma LiveTogetherApart(g: Graph, count: nat, ranges: seq<seq<LiveRange>>, spans: seq<LinearScan.Span>,
                          regs: nat, i: nat, j: nat, p: nat)
    requires Strict(g) && Shaped(g) && Analysed(g, count, ranges) && Hulls(Visited(g), ranges, spans) && regs <= LinearScan.BITS
    requires LinearScan.Run(spans, regs, |spans|).Done?
    requires i < |spans| && j < |spans| && i != j
    requires LiveSince(g, 0, Visited(g)[i].v, p) && LiveSince(g, 0, Visited(g)[j].v, p)
    ensures LinearScan.Run(spans, regs, |spans|).st.locs[i] != LinearScan.Run(spans, regs, |spans|).st.locs[j]
  {
    hide Strict, Analysed, LiveSince, Covers, Ordered, Hull, Visited, LinearScan.Run, LinearScanTheorems.Falling;
    HullsFall(g, count, ranges, spans);
    LiveNotEmpty(g, count, ranges, Visited(g)[i].v, p);
    LiveNotEmpty(g, count, ranges, Visited(g)[j].v, p);
    LinearScanTheorems.DescendingApart(spans, regs, |spans|);
  }

  lemma LiveNotEmpty(g: Graph, count: nat, ranges: seq<seq<LiveRange>>, v: nat, p: nat)
    requires Shaped(g) && Analysed(g, count, ranges) && v < |ranges| && LiveSince(g, 0, v, p)
    ensures Hull(ranges[v]) != LinearScan.Span(0, 0)
  {
    hide LiveSince, Covers, Ordered, Hull;
    assert Covers(ranges[v], p);
    CoversSome(ranges[v], p);
    HullKinds(ranges[v]);
  }

  lemma CoversSome(rs: seq<LiveRange>, p: nat)
    requires Covers(rs, p)
    ensures rs != []
  {
  }

  /** The hulls of the analysed values in visiting order. */
  method CollectIntervals(g: Graph, count: nat, ranges: seq<seq<LiveRange>>) returns (spans: seq<LinearScan.Span>)
    requires |ranges| == count && forall i :: 0 <= i < |Visited(g)| ==> Visited(g)[i].v < count
    ensures Hulls(Visited(g), ranges, spans)
  {
    hide Visited, Hull;
    var births := Visited(g);
    spans := [];
    var i := 0;
    while i < |births|
      invariant 0 <= i <= |births| == |Visited(g)| && births == Visited(g) && |spans| == i
      invariant forall k :: 0 <= k < i ==> spans[k] == Hull(ranges[births[k].v])
    {
      spans := spans + [Hull(ranges[births[i].v])];
      i := i + 1;
    }
  }

  ghost predicate LiveTogether(g: Graph, v: nat, w: nat)
    requires Shaped(g)
  {
    exists p: nat :: LiveSince(g, 0, v, p) && LiveSince(g, 0, w, p)
  }

  /** `s` is the least interval around the live positions of `v`, or empty at 0 if there are none. */
  ghost predicate Spanned(g: Graph, v: nat, s: LinearScan.Span)
    requires Shaped(g)
  {
    && (forall p: nat :: LiveSince(g, 0, v, p) ==> s.begin <= p < s.end)
    && (s == LinearScan.Span(0, 0) || (s.end > 0 && LiveSince(g, 0, v, s.begin) && LiveSince(g, 0, v, s.end - 1)))
  }

  lemma HullSpanned(g: Graph, count: nat, ranges: seq<seq<LiveRange>>, v: nat)
    requires Shaped(g) && Analysed(g, count, ranges) && v < count
    ensures |ranges| == count && Spanned(g, v, Hull(ranges[v]))
  {
    hide LiveSince, Covers, Ordered, Hull, Analysed;
    AnalysedShaped(g, count, ranges, v);
    var rs := ranges[v];
    forall p: nat | LiveSince(g, 0, v, p) ensures Hull(rs).begin <= p < Hull(rs).end {
      CoversSome(rs, p);
      HullLeast(rs, p);
    }
    HullKinds(rs);
    if rs != [] { HullLeast(rs, 0); }
  }

  /** Analysis and allocation, one after the other: the locations are those of the linear scan over the least
      intervals around the live positions, and values that are live at the same position have different ones. */
  method AnalyseAndAllocate(g: Graph, count: nat, regs: nat)
    returns (ok: bool, spans: seq<LinearScan.Span>, locs: seq<LinearScan.Location>)
    requires Strict(g) && Shaped(g) && LivenessAnalyzer.Bounded(g, count) && regs <= LinearScan.BITS
    ensures |locs| == |spans| == |Visited(g)| && forall i :: 0 <= i < |spans| ==> Spanned(g, Visited(g)[i].v, spans[i])
    ensures ok <==> forall k: nat :: k < |spans| ==> !LinearScanTheorems.AllTakenOver(spans, regs, k)
    ensures ok ==> LinearScan.Run(spans, regs, |spans|).Done? && locs == LinearScan.Run(spans, regs, |spans|).st.locs
    ensures ok ==> forall i, j :: 0 <= i < |locs| && 0 <= j < |locs| && i != j && LiveTogether(g, Visited(g)[i].v, Visited(g)[j].v) ==> locs[i] != locs[j]
  {
    hide Strict, LiveSince, Covers, Ordered, Hull, Hulls, Visited, LinearScan.Run, LinearScan.Inv, Analysed, Spanned,
      LinearScanTheorems.AllTakenOver;
    var liveness := new LivenessAnalyzer.LivenessAnalyzer(g, count);
    liveness.Run();
    ghost var ranges := liveness.ranges[..];
    AnalysedIf(g, count, ranges);
    VisitedBounded(g, count);
    spans := CollectIntervals(g, count, liveness.ranges[..]);
    HullsSpanned(g, count, ranges, spans);
    var alloc := new LinearScanRegAlloc.Allocator(spans, regs);
    assert alloc.locs.Length == |alloc.At().locs| == |spans|;
    ok := alloc.AllocateAndAssignRegs();
    locs := alloc.locs[..];
    LinearScanTheorems.RunFailsIff(spans, regs, |spans|);
    if ok {
      forall i, j | 0 <= i < |locs| && 0 <= j < |locs| && i != j && LiveTogether(g, Visited(g)[i].v, Visited(g)[j].v)
        ensures locs[i] != locs[j]
      {
        var p: nat :| LiveSince(g, 0, Visited(g)[i].v, p) && LiveSince(g, 0, Visited(g)[j].v, p);
        LiveTogetherApart(g, count, ranges, spans, regs, i, j, p);
      }
    }
  }

  lemma HullsSpanned(g: Graph, count: nat, ranges: seq<seq<LiveRange>>, spans: seq<LinearScan.Span>)
    requires Shaped(g) && Analysed(g, count, ranges) && Hulls(Visited(g), ranges, spans)
    requires forall i :: 0 <= i < |Visited(g)| ==> Visited(g)[i].v < count
    ensures |spans| == |Visited(g)| && forall i :: 0 <= i < |spans| ==> Spanned(g, Visited(g)[i].v, spans[i])
  {
    hide Visited, Analysed, Hull, Spanned;
    forall i | 0 <= i < |spans| ensures Spanned(g, Visited(g)[i].v, spans[i]) {
      HullSpanned(g, count, ranges, Visited(g)[i].v);
    }
  }

  lemma AnalysedIf(g: Graph, count: nat, ranges: seq<seq<LiveRange>>)
    requires Shaped(g) && |ranges| == count && (forall v :: 0 <= v < count ==> Ordered(ranges[v]))
    requires forall v, p: nat :: 0 <= v < count ==> (Covers(ranges[v], p) <==> LiveSince(g, 0, v, p))
    ensures Analysed(g, count, ranges)
  {
    hide Covers, LiveSince, Ordered;
  }

  lemma VisitedBounded(g: Graph, count: nat)
    requires LivenessAnalyzer.Bounded(g, count)
    ensures forall i :: 0 <= i < |Visited(g)| ==> Visited(g)[i].v < count
  {
    hide Births, LivenessAnalyzer.Bounded;
    BirthsRise(g, |g|);
    forall i | 0 <= i < |Visited(g)| ensures Visited(g)[i].v < count { ListedBounded(g, count, Visited(g)[i]); }
  }

  lemma ListedBounded(g: Graph, count: nat, x: Birth)
    requires LivenessAnalyzer.Bounded(g, count) && Listed(g, x)
    ensures x.v < count
  {
  }
}
