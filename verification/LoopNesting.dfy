/** Asking the finished loop tree whether one loop lies in another, by walking the outer links. */
module LoopNesting {
  import opened ControlFlow
  import opened LoopTheory
  import opened LoopAnalyzer

  /** The outer links are as the analysis leaves them. */
  ghost predicate Linked(g: Graph, outer: seq<LoopRef>) {
    && AllReachable(g) && |outer| == |g|
    && forall h: nat :: h < |g| ==> if IsHeader(g, h) then Innermost(g, h, outer[h], false) else outer[h] == NoLoop
  }

  ghost predicate IsLoop(g: Graph, l: LoopRef) {
    l == Root || (l.Headed? && l.header < |g| && IsHeader(g, l.header))
  }

  /** All blocks of `l` are in the other loop, and it is another loop. The root holds everything. */
  ghost predicate Strictly(g: Graph, l: LoopRef, other: LoopRef) {
    l.Headed? && (other == Root || (other.Headed? && other != l && Inside(g, l.header, other.header)))
  }

  ghost function Around(g: Graph, k: nat): set<nat> { set h | 0 <= h < |g| && InLoop(g, h, k) }

  ghost function Depth(g: Graph, l: LoopRef): nat {
    match l
    case NoLoop => 0
    case Root => 1
    case Headed(k) => 2 + |Around(g, k)|
  }

  lemma SameLoop(g: Graph, m: nat, k: nat)
    requires AllReachable(g) && m < |g| && k < |g| && InLoop(g, m, k) && InLoop(g, k, m)
    ensures m == k
  {
    hide Dom, InLoop, Reachable;
    HeaderDominates(g, m, k);
    HeaderDominates(g, k, m);
    Antisymmetric(g, m, k);
  }

  lemma OwnHeader(g: Graph, k: nat)
    requires IsHeader(g, k)
    ensures InLoop(g, k, k)
  {
  }

  lemma InsideMeans(g: Graph, k: nat, h: nat, b: nat)
    requires Inside(g, k, h) && InLoop(g, k, b)
    ensures InLoop(g, h, b)
  {
  }

  lemma InsideTransitive(g: Graph, k: nat, m: nat, h: nat)
    requires Inside(g, k, m) && Inside(g, m, h)
    ensures Inside(g, k, h)
  {
    hide InLoop;
  }

  lemma OuterParts(g: Graph, outer: seq<LoopRef>, k: nat, m: nat)
    requires Linked(g, outer) && k < |g| && IsHeader(g, k) && outer[k] == Headed(m)
    ensures AllReachable(g) && m < |g| && m != k && InLoop(g, m, k) && IsHeader(g, m)
    ensures forall h: nat :: h < |g| && h != k && InLoop(g, h, k) ==> Inside(g, m, h)
  {
    hide IsHeader, InLoop, Inside, AllReachable;
    assert Innermost(g, k, outer[k], false);
    LoopHasHeader(g, m, k);
  }

  lemma OuterRoot(g: Graph, outer: seq<LoopRef>, k: nat)
    requires Linked(g, outer) && k < |g| && IsHeader(g, k) && !outer[k].Headed?
    ensures outer[k] == Root && forall h: nat :: h < |g| && h != k ==> !InLoop(g, h, k)
  {
    hide IsHeader, InLoop, Inside, AllReachable;
    assert Innermost(g, k, outer[k], false);
  }

  /** Outer links go to loops around fewer loops. */
  lemma LinkRises(g: Graph, k: nat, m: nat)
    requires AllReachable(g) && k < |g| && m < |g| && m != k && InLoop(g, m, k) && IsHeader(g, k)
    ensures |Around(g, m)| < |Around(g, k)|
  {
    hide InLoop, Inside, IsHeader, AllReachable;
    forall h | h in Around(g, m) ensures h in Around(g, k) {
      if h != m {
        LoopInside(g, h, m);
        InsideMeans(g, m, h, k);
      }
    }
    OwnHeader(g, k);
    if InLoop(g, k, m) { SameLoop(g, m, k); }
    assert k in Around(g, k) && k !in Around(g, m);
    Smaller(Around(g, m), Around(g, k));
  }

  lemma Smaller(a: set<nat>, b: set<nat>)
    requires a < b
    ensures |a| < |b|
  {
    assert b == a + (b - a);
  }

  /** One link up: a loop is strictly in another when its outer loop is the other one or strictly in it. */
  lemma LinkUp(g: Graph, outer: seq<LoopRef>, k: nat, other: LoopRef)
    requires Linked(g, outer) && k < |g| && IsHeader(g, k) && IsLoop(g, other)
    ensures IsLoop(g, outer[k]) && Depth(g, outer[k]) < Depth(g, Headed(k))
    ensures Strictly(g, Headed(k), other) <==> outer[k] == other || Strictly(g, outer[k], other)
  {
    hide Linked, InLoop, Inside, IsHeader, AllReachable;
    LinkedSize(g, outer);
    OwnHeader(g, k);
    if outer[k].Headed? {
      var m := outer[k].header;
      OuterParts(g, outer, k, m);
      LinkRises(g, k, m);
      LoopInside(g, m, k);
      if other.Headed? {
        var h := other.header;
        if Strictly(g, Headed(k), other) { InsideMeans(g, k, h, k); }
        if Strictly(g, Headed(m), other) {
          InsideTransitive(g, k, m, h);
          if h == k { SameInside(g, k, m); }
        }
      }
    } else {
      OuterRoot(g, outer, k);
      if other.Headed? && Strictly(g, Headed(k), other) { InsideMeans(g, k, other.header, k); }
    }
  }

  lemma SameInside(g: Graph, k: nat, m: nat)
    requires AllReachable(g) && k < |g| && m < |g| && InLoop(g, m, k) && IsHeader(g, m) && Inside(g, m, k)
    ensures m == k
  {
    hide InLoop, Inside, IsHeader, AllReachable;
    OwnHeader(g, m);
    InsideMeans(g, m, k, m);
    SameLoop(g, m, k);
  }

  lemma LinkedSize(g: Graph, outer: seq<LoopRef>)
    requires Linked(g, outer)
    ensures |outer| == |g|
  {
  }

  /** Whether loop `l` lies in the other loop. The walk ends, and it answers for the sets of blocks. */
  method IsIn(g: Graph, outer: seq<LoopRef>, l: LoopRef, other: LoopRef) returns (answer: bool)
    requires Linked(g, outer) && IsLoop(g, l) && IsLoop(g, other)
    ensures answer <==> Strictly(g, l, other)
  {
    hide Linked, Inside, IsHeader, AllReachable, Around;
    LinkedSize(g, outer);
    var loop := NoLoop;
    if l.Headed? {
      LinkUp(g, outer, l.header, other);
      loop := outer[l.header];
    }
    while loop != NoLoop
      invariant loop == NoLoop || IsLoop(g, loop)
      invariant Strictly(g, l, other) <==> loop == other || Strictly(g, loop, other)
      decreases Depth(g, loop)
    {
      if loop == other { return true; }
      if loop.Headed? {
        LinkUp(g, outer, loop.header, other);
        loop := outer[loop.header];
      } else {
        loop := NoLoop;
      }
    }
    return false;
  }
}
