/** Natural loops: dominance by paths, membership, nesting. Block 0 is the entry. */
module LoopTheory {
  import opened ControlFlow

  ghost predicate Dom(g: Graph, a: nat, b: nat) { Dominates(g, 0, a, b) }

  ghost predicate Reachable(g: Graph, b: nat) { exists p :: From(g, p, 0, b) }

  ghost predicate AllReachable(g: Graph) { ValidGraph(g) && forall b :: 0 <= b < |g| ==> Reachable(g, b) }

  /** A dominator finishes after what it dominates. */
  ghost predicate DominatorsLater(g: Graph, order: seq<nat>) {
    forall i, a: nat {:trigger Dom(g, a, order[i])} :: 0 <= i < |order| && Dom(g, a, order[i]) && a != order[i] ==> a !in order[..i]
  }

  /** An edge back to a dominator. */
  ghost predicate BackEdge(g: Graph, u: nat, h: nat) { u < |g| && h in g[u] && Dom(g, h, u) }

  ghost predicate IsHeader(g: Graph, h: nat) { exists u :: BackEdge(g, u, h) }

  /** A path from `b` to the source of a back edge of `h` that does not go through `h`. */
  ghost predicate LoopPath(g: Graph, h: nat, b: nat, p: seq<nat>) {
    Path(g, p) && p[0] == b && BackEdge(g, p[|p| - 1], h) && h !in p
  }

  /** The natural loop of `h`. */
  ghost predicate InLoop(g: Graph, h: nat, b: nat) { (b == h && IsHeader(g, h)) || exists p :: LoopPath(g, h, b, p) }

  ghost predicate Inside(g: Graph, k: nat, h: nat) { forall b :: InLoop(g, k, b) ==> InLoop(g, h, b) }

  /** Every cycle has an edge back to a dominator. */
  ghost predicate Reducible(g: Graph) {
    forall p :: Path(g, p) && p[0] in g[p[|p| - 1]] ==> HasBackEdge(g, p)
  }

  ghost predicate HasBackEdge(g: Graph, p: seq<nat>)
    requires Path(g, p)
  {
    BackEdge(g, p[|p| - 1], p[0]) || exists k :: 0 <= k < |p| - 1 && BackEdge(g, p[k], p[k + 1])
  }

  // ----- Paths -----

  lemma DomMeans(g: Graph, a: nat, b: nat, p: seq<nat>)
    requires Dom(g, a, b) && From(g, p, 0, b)
    ensures a in p
  {
  }

  lemma {:induction false} LastAt(p: seq<nat>, a: nat) returns (l: nat)
    requires a in p
    ensures l < |p| && p[l] == a && a !in p[l + 1..]
  {
    var n := |p| - 1;
    if p[n] == a { l := n; } else {
      assert p == p[..n] + [p[n]];
      l := LastAt(p[..n], a);
      assert p[l + 1..] == p[..n][l + 1..] + [p[n]];
    }
  }

  /** The part of a path from its last visit of `a` on. */
  lemma Suffix(g: Graph, p: seq<nat>, l: nat)
    requires Path(g, p) && l < |p|
    ensures From(g, p[l..], p[l], p[|p| - 1])
  {
    SubPath(g, p, l, |p|);
  }

  lemma Prefix(g: Graph, p: seq<nat>, l: nat)
    requires Path(g, p) && l < |p|
    ensures From(g, p[..l + 1], p[0], p[l])
  {
    SubPath(g, p, 0, l + 1);
  }

  // ----- Dominance -----

  lemma DomSelf(g: Graph, a: nat)
    ensures Dom(g, a, a)
  {
  }

  /** A block that does not dominate another can be avoided. */
  lemma Avoid(g: Graph, a: nat, b: nat) returns (p: seq<nat>)
    requires !Dom(g, a, b)
    ensures From(g, p, 0, b) && a !in p
  {
    p :| From(g, p, 0, b) && a !in p;
  }

  lemma DomTransitive(g: Graph, a: nat, b: nat, c: nat)
    requires Dom(g, a, b) && Dom(g, b, c)
    ensures Dom(g, a, c)
  {
    hide Path;
    forall p | From(g, p, 0, c) ensures a in p {
      var l := LastAt(p, b);
      FromPath(g, p, 0, c);
      Prefix(g, p, l);
      DomMeans(g, a, b, p[..l + 1]);
    }
  }

  lemma FromPath(g: Graph, p: seq<nat>, a: nat, b: nat)
    requires From(g, p, a, b)
    ensures Path(g, p) && |p| > 0 && p[0] == a && p[|p| - 1] == b
  {
  }

  /** A way round: a path to `c` that avoids `a`, continued where `p` has left `a` behind. */
  lemma WayRound(g: Graph, a: nat, c: nat, b: nat, p: seq<nat>, j: nat, q: seq<nat>)
    requires From(g, p, 0, b) && j < |p| && p[j] == c && a !in p[j..] && From(g, q, 0, c) && a !in q
    ensures !Dom(g, a, b)
  {
    Suffix(g, p, j);
    JoinAt(g, q, p[j..]);
    assert a !in q + p[j..][1..];
  }

  /** Two dominators of a block dominate one another. */
  lemma Comparable(g: Graph, a: nat, c: nat, b: nat)
    requires Dom(g, a, b) && Dom(g, c, b) && Reachable(g, b)
    ensures Dom(g, a, c) || Dom(g, c, a)
  {
    hide Path;
    if !Dom(g, a, c) && !Dom(g, c, a) {
      var q := Avoid(g, a, c);
      var r := Avoid(g, c, a);
      var p :| From(g, p, 0, b);
      var i := LastAt(p, a);
      var j := LastAt(p, c);
      if i < j {
        NotFrom(p, i, j, a);
        WayRound(g, a, c, b, p, j, q);
      } else {
        if i == j { DomSelf(g, a); }
        NotFrom(p, j, i, c);
        WayRound(g, c, a, b, p, i, r);
      }
    }
  }

  lemma NotFrom(p: seq<nat>, i: nat, j: nat, a: nat)
    requires i < j < |p| && a !in p[i + 1..]
    ensures a !in p[j..]
  {
    assert p[j..] == p[i + 1..][j - i - 1..];
  }

  lemma Antisymmetric(g: Graph, a: nat, b: nat)
    requires Dom(g, a, b) && Dom(g, b, a) && Reachable(g, b)
    ensures a == b
  {
    if a != b {
      var p := Shortest(g, b);
      var l := LastAt(p, a);
      Prefix(g, p, l);
      DomMeans(g, b, a, p[..l + 1]);
      var m := LastAt(p[..l + 1], b);
      assert p[m] == b && m < |p| - 1;
      Prefix(g, p, m);
    }
  }

  /** A shortest path from the entry. */
  lemma Shortest(g: Graph, b: nat) returns (p: seq<nat>)
    requires Reachable(g, b)
    ensures From(g, p, 0, b) && forall q :: From(g, q, 0, b) ==> |p| <= |q|
  {
    p :| From(g, p, 0, b);
    p := ShortestFrom(g, b, p);
  }

  lemma {:induction false} ShortestFrom(g: Graph, b: nat, p0: seq<nat>) returns (p: seq<nat>)
    requires From(g, p0, 0, b)
    ensures From(g, p, 0, b) && forall q :: From(g, q, 0, b) ==> |p| <= |q|
    decreases |p0|
  {
    if q :| From(g, q, 0, b) && |q| < |p0| {
      p := ShortestFrom(g, b, q);
    } else {
      p := p0;
    }
  }

  // ----- Loops -----

  /** A header dominates its loop. */
  lemma HeaderDominates(g: Graph, h: nat, b: nat)
    requires InLoop(g, h, b)
    ensures Dom(g, h, b)
  {
    if b != h {
      var q :| LoopPath(g, h, b, q);
      if !Dom(g, h, b) {
        var p := Avoid(g, h, b);
        JoinAt(g, p, q);
        DomMeans(g, h, q[|q| - 1], p + q[1..]);
      }
    } else {
      DomSelf(g, h);
    }
  }

  /** Every block on the way to the latch is in the loop. */
  lemma OnLoopPath(g: Graph, h: nat, b: nat, p: seq<nat>, k: nat)
    requires LoopPath(g, h, b, p) && k < |p|
    ensures InLoop(g, h, p[k])
  {
    Suffix(g, p, k);
    assert p[|p| - 1] == p[k..][|p[k..]| - 1];
    assert LoopPath(g, h, p[k], p[k..]);
  }

  /** Predecessors of a block of the loop other than the header are in the loop. */
  lemma PredecessorIn(g: Graph, h: nat, b: nat, x: nat)
    requires ValidGraph(g) && InLoop(g, h, b) && b != h && x < |g| && b in g[x]
    ensures InLoop(g, h, x)
  {
    var p :| LoopPath(g, h, b, p);
    if x == h {
      assert IsHeader(g, h);
    } else {
      var q := [x] + p;
      assert forall k :: 0 <= k < |q| - 1 ==> q[k + 1] in g[q[k]] by {
        forall k | 0 <= k < |q| - 1 ensures q[k + 1] in g[q[k]] {
          if k > 0 { assert q[k] == p[k - 1] && q[k + 1] == p[k]; }
        }
      }
      assert LoopPath(g, h, x, q);
    }
  }

  lemma LatchIn(g: Graph, h: nat, u: nat)
    requires ValidGraph(g) && BackEdge(g, u, h)
    ensures InLoop(g, h, u)
  {
    if u == h { assert IsHeader(g, h); } else { assert LoopPath(g, h, u, [u]); }
  }

  /** A path from `k` to `b` that avoids `h`, when `h` dominates `k` and `k` dominates `b`. */
  lemma Downwards(g: Graph, h: nat, k: nat, b: nat) returns (p: seq<nat>)
    requires Dom(g, h, k) && Dom(g, k, b) && h != k && Reachable(g, b) && Reachable(g, k) && Reachable(g, h)
    ensures From(g, p, k, b) && h !in p
  {
    hide Path;
    var q :| From(g, q, 0, b);
    DomTransitive(g, h, k, b);
    var i := LastAt(q, h);
    var j := LastAt(q, k);
    FromPath(g, q, 0, b);
    if i > j {
      if Dom(g, k, h) { Antisymmetric(g, h, k); }
      var r := Avoid(g, k, h);
      NotFrom(q, j, i, k);
      WayRound(g, k, h, b, q, i, r);
    }
    NotFrom(q, i, j, h);
    Suffix(g, q, j);
    p := q[j..];
  }

  /** Of two loops that share a block, the one with the dominated header has its header in the other. */
  lemma HeaderNested(g: Graph, h: nat, k: nat, b: nat)
    requires AllReachable(g) && h < |g| && k < |g| && b < |g|
    requires InLoop(g, h, b) && InLoop(g, k, b) && Dom(g, h, k) && h != k
    ensures InLoop(g, h, k)
  {
    hide Path, Reachable;
    HeaderDominates(g, k, b);
    if b == h {
      Antisymmetric(g, h, k);
    } else {
      var p := Downwards(g, h, k, b);
      var q :| LoopPath(g, h, b, q);
      JoinPaths(g, h, k, b, p, q);
    }
  }

  lemma JoinPaths(g: Graph, h: nat, k: nat, b: nat, p: seq<nat>, q: seq<nat>)
    requires From(g, p, k, b) && h !in p && LoopPath(g, h, b, q)
    ensures InLoop(g, h, k)
  {
    JoinAt(g, p, q);
    assert LoopPath(g, h, k, p + q[1..]);
  }

  /** A loop whose header is in another loop is inside that loop. */
  lemma LoopInside(g: Graph, h: nat, k: nat)
    requires AllReachable(g) && h < |g| && k < |g| && InLoop(g, h, k) && h != k
    ensures Inside(g, k, h)
  {
    forall x | InLoop(g, k, x) ensures InLoop(g, h, x) {
      if x != k {
        var p :| LoopPath(g, k, x, p);
        if h in p {
          var i :| 0 <= i < |p| && p[i] == h;
          OnLoopPath(g, k, x, p, i);
          HeaderDominates(g, k, h);
          HeaderDominates(g, h, k);
          Antisymmetric(g, h, k);
        }
        Extend(g, h, k, x, p);
      }
    }
  }

  /** Going on from the latch of the inner loop to its header and out. */
  lemma Extend(g: Graph, h: nat, k: nat, x: nat, p: seq<nat>)
    requires LoopPath(g, k, x, p) && h !in p && InLoop(g, h, k) && h != k && k < |g|
    ensures InLoop(g, h, x)
  {
    var q :| LoopPath(g, h, k, q);
    var r := p + [k];
    forall j | 0 <= j < |r| - 1 ensures r[j + 1] in g[r[j]] {
      if j + 1 < |p| { assert r[j] == p[j] && r[j + 1] == p[j + 1]; }
    }
    JoinAt(g, r, q);
    assert LoopPath(g, h, x, r + q[1..]);
  }

  /** In a reducible graph an edge back onto the path it was reached by leads to a dominator. */
  lemma RetreatingIsBack(g: Graph, p: seq<nat>, h: nat)
    requires ValidGraph(g) && Reducible(g) && Path(g, p) && p[0] == 0 && h in g[p[|p| - 1]] && h in p
    requires forall i, j :: 0 <= i < j < |p| ==> p[i] != p[j]
    ensures BackEdge(g, p[|p| - 1], h)
  {
    var i := LastAt(p, h);
    Suffix(g, p, i);
    var c := p[i..];
    assert HasBackEdge(g, c);
    forall k | 0 <= k < |c| - 1 ensures !BackEdge(g, c[k], c[k + 1]) {
      ForwardStep(g, p, i + k);
    }
  }

  /** On a path without repetitions no step leads back to a dominator. */
  lemma ForwardStep(g: Graph, p: seq<nat>, m: nat)
    requires Path(g, p) && p[0] == 0 && m + 1 < |p| && forall i, j :: 0 <= i < j < |p| ==> p[i] != p[j]
    ensures !BackEdge(g, p[m], p[m + 1])
  {
    hide Path, Dom;
    Prefix(g, p, m);
    NotYet(p, m);
    if BackEdge(g, p[m], p[m + 1]) { DomMeans(g, p[m + 1], p[m], p[..m + 1]); }
  }

  lemma NotYet(p: seq<nat>, m: nat)
    requires m + 1 < |p| && forall i, j :: 0 <= i < j < |p| ==> p[i] != p[j]
    ensures p[m + 1] !in p[..m + 1]
  {
  }
}
