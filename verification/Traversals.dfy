/** Depth-first traversal of the blocks and the reverse post-order the passes go by. */
module Traversals {
  import opened ControlFlow
  import opened LoopTheory

  ghost predicate Leads(g: Graph, a: nat, b: nat) { exists p :: From(g, p, a, b) }

  /** Blocks come after the blocks their edges lead to, unless the edge closes a cycle. */
  ghost predicate PostOrder(g: Graph, order: seq<nat>) {
    && NoRepeats(order) && (forall x :: x in order ==> x < |g| && Reachable(g, x))
    && forall i, s: nat {:trigger s in g[order[i]]} :: 0 <= i < |order| && order[i] < |g| && s in g[order[i]] ==> s in order[..i] || Leads(g, s, order[i])
  }

  /** Marked blocks are on the way from the entry or finished, and not both. */
  ghost predicate Marked(g: Graph, path: seq<nat>, marked: seq<bool>, order: seq<nat>) {
    && |marked| == |g|
    && (forall x: nat :: x < |g| && marked[x] <==> x in path || x in order)
    && (forall x :: x in path ==> x !in order)
    && forall x, s: nat {:trigger s in g[x]} :: x in order && x < |g| && s in g[x] ==> s < |g| && marked[s]
  }

  ghost predicate Walk(g: Graph, path: seq<nat>, marked: seq<bool>, order: seq<nat>) {
    Marked(g, path, marked, order) && PostOrder(g, order) && DominatorsLater(g, order)
  }

  ghost predicate OnWay(g: Graph, path: seq<nat>) { Path(g, path) && path[0] == 0 && NoRepeats(path) }

  lemma MarkNext(g: Graph, path: seq<nat>, marked: seq<bool>, order: seq<nat>, b: nat)
    requires Walk(g, path, marked, order) && b < |g| && !marked[b]
    ensures Walk(g, path + [b], marked[b := true], order)
  {
    hide PostOrder, DominatorsLater;
    forall x: nat ensures x in path + [b] <==> x in path || x == b {
      if x in path { var i :| 0 <= i < |path| && path[i] == x; assert (path + [b])[i] == x; }
      if x == b { assert (path + [b])[|path|] == b; }
    }
  }

  lemma NextOnWay(g: Graph, path: seq<nat>, marked: seq<bool>, order: seq<nat>, s: nat)
    requires ValidGraph(g) && OnWay(g, path) && Walk(g, path, marked, order) && s in g[path[|path| - 1]] && s < |g| && !marked[s]
    ensures OnWay(g, path + [s])
  {
    hide PostOrder, DominatorsLater;
    var p := path + [s];
    forall k | 0 <= k < |p| - 1 ensures p[k + 1] in g[p[k]] {
      if k + 1 < |path| { assert p[k] == path[k] && p[k + 1] == path[k + 1]; }
    }
  }

  /** A block on the way leads to its end. */
  lemma WayLeads(g: Graph, path: seq<nat>, s: nat)
    requires Path(g, path) && s in path
    ensures Leads(g, s, path[|path| - 1])
  {
    hide Path;
    var l := LastAt(path, s);
    Suffix(g, path, l);
    assert From(g, path[l..], s, path[|path| - 1]);
  }

  lemma MarkedFinish(g: Graph, path: seq<nat>, marked: seq<bool>, order: seq<nat>, b: nat)
    requires Marked(g, path + [b], marked, order) && NoRepeats(path + [b]) && b < |g|
    requires forall s :: s in g[b] ==> s < |marked| && marked[s]
    ensures b !in order && Marked(g, path, marked, order + [b])
  {
    var here, order' := path + [b], order + [b];
    assert here[|path|] == b;
    forall x: nat ensures x in order' <==> x in order || x == b {
      if x == b { assert order'[|order|] == b; }
      if x in order { var i :| 0 <= i < |order| && order[i] == x; assert order'[i] == x; }
    }
    forall x: nat ensures x in here <==> x in path || x == b {
      if x in path { var i :| 0 <= i < |path| && path[i] == x; assert here[i] == x; }
    }
    forall x | x in path ensures x !in order' {
      var i :| 0 <= i < |path| && path[i] == x;
      assert here[i] == x != here[|path|];
    }
  }

  lemma MarkedWhere(g: Graph, path: seq<nat>, marked: seq<bool>, order: seq<nat>, s: nat)
    requires Marked(g, path, marked, order) && s < |marked| && marked[s]
    ensures s in path || s in order
  {
  }

  lemma EdgesFinish(g: Graph, path: seq<nat>, marked: seq<bool>, order: seq<nat>, b: nat)
    requires Marked(g, path + [b], marked, order) && PostOrder(g, order) && Path(g, path + [b]) && b < |g| && b !in order
    requires Reachable(g, b) && forall s :: s in g[b] ==> s < |marked| && marked[s]
    ensures PostOrder(g, order + [b])
  {
    hide Path, Leads, Reachable, Marked;
    var order' := order + [b];
    forall i, s: nat | 0 <= i < |order'| && order'[i] < |g| && s in g[order'[i]] ensures s in order'[..i] || Leads(g, s, order'[i]) {
      if i == |order| {
        assert order'[..i] == order;
        MarkedWhere(g, path + [b], marked, order, s);
        if s in path + [b] { WayLeads(g, path + [b], s); }
      } else {
        assert order'[..i] == order[..i] && order'[i] == order[i] && s in g[order[i]];
      }
    }
  }

  lemma DominatorsFinish(g: Graph, path: seq<nat>, marked: seq<bool>, order: seq<nat>, b: nat)
    requires Marked(g, path + [b], marked, order) && DominatorsLater(g, order) && From(g, path + [b], 0, b)
    ensures DominatorsLater(g, order + [b])
  {
    hide From, Dom;
    var here, order' := path + [b], order + [b];
    forall i, a: nat | 0 <= i < |order'| && Dom(g, a, order'[i]) && a != order'[i] ensures a !in order'[..i] {
      if i == |order| {
        DomMeans(g, a, b, here);
        assert order'[..i] == order;
      } else {
        assert order'[..i] == order[..i] && order'[i] == order[i] && Dom(g, a, order[i]);
      }
    }
  }

  /** All successors are marked: the block is finished. */
  lemma FinishNext(g: Graph, path: seq<nat>, marked: seq<bool>, order: seq<nat>, b: nat)
    requires Walk(g, path + [b], marked, order) && OnWay(g, path + [b]) && b < |g|
    requires forall s :: s in g[b] ==> s < |marked| && marked[s]
    ensures Walk(g, path, marked, order + [b])
  {
    hide Path, Leads, Dom, Reachable, Marked, PostOrder, DominatorsLater, NoRepeats, From;
    WayReaches(g, path + [b]);
    WayFrom(g, path + [b]);
    MarkedFinish(g, path, marked, order, b);
    EdgesFinish(g, path, marked, order, b);
    DominatorsFinish(g, path, marked, order, b);
  }

  lemma WayFrom(g: Graph, path: seq<nat>)
    requires OnWay(g, path)
    ensures From(g, path, 0, path[|path| - 1])
  {
  }

  lemma WayReaches(g: Graph, path: seq<nat>)
    requires OnWay(g, path)
    ensures Reachable(g, path[|path| - 1])
  {
    WayFrom(g, path);
    assert From(g, path, 0, path[|path| - 1]);
  }

  function Unmarked(marked: seq<bool>): set<nat> { set x: nat | x < |marked| && !marked[x] }

  ghost predicate MoreMarked(marked0: seq<bool>, marked: seq<bool>) {
    |marked0| == |marked| && forall x :: 0 <= x < |marked| && marked0[x] ==> marked[x]
  }

  lemma FewerUnmarked(marked0: seq<bool>, marked: seq<bool>)
    requires MoreMarked(marked0, marked)
    ensures Unmarked(marked) <= Unmarked(marked0)
  {
  }

  lemma OneMarked(marked: seq<bool>, b: nat)
    requires b < |marked| && !marked[b]
    ensures Unmarked(marked[b := true]) < Unmarked(marked) && MoreMarked(marked, marked[b := true])
  {
    assert b in Unmarked(marked);
  }

  /** Edges from finished blocks lead to finished blocks, once nothing is on the way any more. */
  lemma {:induction false} FinishedClosed(g: Graph, order: seq<nat>, p: seq<nat>, k: nat)
    requires Path(g, p) && p[0] in order && k < |p| && forall x, s: nat :: x in order && x < |g| && s in g[x] ==> s in order
    ensures p[k] in order
  {
    if k > 0 {
      FinishedClosed(g, order, p, k - 1);
      assert p[k - 1 + 1] in g[p[k - 1]];
    }
  }

  /** Every block that can be reached once, dominators first, and an edge that goes back closes a cycle. */
  ghost predicate ReversePostOrder(g: Graph, rpo: seq<nat>) {
    && NoRepeats(rpo) && (forall b: nat :: b in rpo <==> b < |g| && Reachable(g, b))
    && (forall i, a: nat {:trigger Dom(g, a, rpo[i])} :: 0 <= i < |rpo| && Dom(g, a, rpo[i]) ==> a in rpo[..i + 1])
    && forall i, s: nat {:trigger s in g[rpo[i]]} :: 0 <= i < |rpo| && rpo[i] < |g| && s in g[rpo[i]] ==> s in rpo[i + 1..] || Leads(g, s, rpo[i])
  }

  function Reverse(s: seq<nat>): (r: seq<nat>)
    ensures |r| == |s| && forall i :: 0 <= i < |s| ==> r[i] == s[|s| - 1 - i]
  {
    seq(|s|, i requires 0 <= i < |s| => s[|s| - 1 - i])
  }

  lemma Reversed(s: seq<nat>, i: nat, x: nat)
    requires i < |s|
    ensures x in Reverse(s) <==> x in s
    ensures x in Reverse(s)[i + 1..] <==> x in s[..|s| - 1 - i]
  {
    var r := Reverse(s);
    if x in s { var k :| 0 <= k < |s| && s[k] == x; assert r[|s| - 1 - k] == x; }
    if x in r[i + 1..] { var k :| 0 <= k < |r[i + 1..]| && r[i + 1..][k] == x; assert s[..|s| - 1 - i][|s| - 1 - (k + i + 1)] == x; }
    if x in s[..|s| - 1 - i] { var k :| 0 <= k < |s| - 1 - i && s[k] == x; assert r[i + 1..][|s| - 1 - k - (i + 1)] == x; }
  }

  lemma InOrSplit(s: seq<nat>, i: nat, x: nat)
    requires i <= |s| && x in s && x !in s[i..]
    ensures x in s[..i]
  {
    assert s == s[..i] + s[i..];
  }

  lemma DominatorReachable(g: Graph, a: nat, b: nat)
    requires Reachable(g, b) && Dom(g, a, b)
    ensures a < |g| && Reachable(g, a)
  {
    var p :| From(g, p, 0, b);
    DomMeans(g, a, b, p);
    var l :| 0 <= l < |p| && p[l] == a;
    Prefix(g, p, l);
  }

  /** Everything that can be reached is finished, once nothing is on the way any more. */
  lemma ReachedFinished(g: Graph, marked: seq<bool>, order: seq<nat>, b: nat)
    requires Walk(g, [], marked, order) && 0 in order && Reachable(g, b)
    ensures b in order
  {
    hide PostOrder, DominatorsLater;
    var p :| From(g, p, 0, b);
    FinishedClosed(g, order, p, |p| - 1);
  }

  lemma ReachedInReverse(g: Graph, marked: seq<bool>, order: seq<nat>, b: nat)
    requires Walk(g, [], marked, order) && 0 in order
    ensures b in Reverse(order) <==> b < |g| && Reachable(g, b)
  {
    hide Leads, Dom, Reachable, Marked, DominatorsLater;
    Reversed(order, 0, b);
    if b < |g| && Reachable(g, b) { ReachedFinished(g, marked, order, b); }
  }

  lemma DominatorsFirst(g: Graph, marked: seq<bool>, order: seq<nat>, i: nat, a: nat)
    requires Walk(g, [], marked, order) && 0 in order && i < |order| && Dom(g, a, Reverse(order)[i])
    ensures a in Reverse(order)[..i + 1]
  {
    hide Leads, Dom, Reachable, Marked;
    var rpo, j := Reverse(order), |order| - 1 - i;
    if a == rpo[i] {
      assert rpo[..i + 1][i] == a;
    } else {
      assert order[j] == rpo[i] && order[j] in order;
      DominatorReachable(g, a, order[j]);
      ReachedFinished(g, marked, order, a);
      Reversed(order, i, a);
      InOrSplit(rpo, i + 1, a);
    }
  }

  /** The finished blocks in reverse are what the passes want. */
  lemma OrderRight(g: Graph, marked: seq<bool>, order: seq<nat>)
    requires Walk(g, [], marked, order) && 0 in order
    ensures ReversePostOrder(g, Reverse(order))
  {
    hide Leads, Dom, Reachable, Marked, DominatorsLater;
    var rpo := Reverse(order);
    forall b: nat ensures b in rpo <==> b < |g| && Reachable(g, b) { ReachedInReverse(g, marked, order, b); }
    forall i, a: nat | 0 <= i < |rpo| && Dom(g, a, rpo[i]) ensures a in rpo[..i + 1] {
      DominatorsFirst(g, marked, order, i, a);
    }
    forall i, s: nat | 0 <= i < |rpo| && rpo[i] < |g| && s in g[rpo[i]] ensures s in rpo[i + 1..] || Leads(g, s, rpo[i]) {
      var j := |order| - 1 - i;
      assert order[j] == rpo[i] && s in g[order[j]];
      Reversed(order, i, s);
    }
  }

  class DFO {
    const g: Graph
    var marked: seq<bool>
    var visitedCounter: nat
    var result: seq<nat>

    constructor (g: Graph)
      requires ValidGraph(g) && |g| > 0
      ensures this.g == g && Walk(g, [], marked, result) && forall x :: 0 <= x < |g| ==> !marked[x]
      ensures result == [] && visitedCounter == 0
    {
      this.g, marked, visitedCounter, result := g, seq(|g|, _ => false), 0, [];
    }

    /** Visits `b` and all not yet marked below it, and hands them on when they are finished. */
    method TraverseImpl(b: nat, ghost path: seq<nat>)
      requires ValidGraph(g) && Walk(g, path, marked, result) && b < |g| && !marked[b] && OnWay(g, path + [b])
      modifies this
      ensures Walk(g, path, marked, result) && b in result && MoreMarked(old(marked), marked)
      ensures visitedCounter - old(visitedCounter) == |result| - |old(result)|
      decreases Unmarked(marked)
    {
      hide Walk, OnWay, MoreMarked, Unmarked;
      ghost var marked0, here := marked, path + [b];
      visitedCounter := visitedCounter + 1;
      WalkSize(g, path, marked, result);
      MarkNext(g, path, marked, result, b);
      OneMarked(marked, b);
      marked := marked[b := true];
      var k := 0;
      while k < |g[b]|
        invariant 0 <= k <= |g[b]| && Walk(g, here, marked, result) && MoreMarked(marked0, marked) && b < |g|
        invariant Unmarked(marked) < Unmarked(marked0)
        invariant forall j :: 0 <= j < k ==> g[b][j] < |marked| && marked[g[b][j]]
        invariant visitedCounter - old(visitedCounter) == |result| - |old(result)| + 1
      {
        var s := g[b][k];
        WalkSize(g, here, marked, result);
        if !marked[s] {
          assert here[|here| - 1] == b;
          NextOnWay(g, here, marked, result, s);
          ghost var marked1 := marked;
          TraverseImpl(s, here);
          FewerUnmarked(marked1, marked);
          MoreAdds(marked0, marked1, marked);
          ResultMarked(g, here, marked, result, s);
        }
        k := k + 1;
      }
      FinishNext(g, path, marked, result, b);
      result := result + [b];
      assert result[|result| - 1] == b;
    }

    /** Reverse post-order from the entry. */
    method DoRPO() returns (rpo: seq<nat>)
      requires ValidGraph(g) && |g| > 0 && Walk(g, [], marked, result) && result == [] && visitedCounter == 0
      requires forall x :: 0 <= x < |g| ==> x < |marked| && !marked[x]
      modifies this
      ensures ReversePostOrder(g, rpo) && |rpo| == visitedCounter
    {
      hide Walk, ReversePostOrder;
      assert [] + [0] == [0];
      TraverseImpl(0, []);
      OrderRight(g, marked, result);
      rpo := Reverse(result);
    }
  }

  lemma WalkSize(g: Graph, path: seq<nat>, marked: seq<bool>, order: seq<nat>)
    requires Walk(g, path, marked, order)
    ensures |marked| == |g|
  {
    hide PostOrder, DominatorsLater;
  }

  lemma MoreAdds(marked0: seq<bool>, marked1: seq<bool>, marked: seq<bool>)
    requires MoreMarked(marked0, marked1) && MoreMarked(marked1, marked)
    ensures MoreMarked(marked0, marked) && forall x :: 0 <= x < |marked| && marked1[x] ==> marked[x]
  {
  }

  lemma ResultMarked(g: Graph, path: seq<nat>, marked: seq<bool>, order: seq<nat>, s: nat)
    requires Walk(g, path, marked, order) && s in order
    ensures s < |marked| && marked[s]
  {
    hide PostOrder, DominatorsLater;
  }
}
