/** What a depth-first numbering of a control-flow graph guarantees. Block 0 need not be the entry, the numbering
    says which block is. */
module DfsTree {
  import opened ControlFlow

  /** Visit number of every block, the visited blocks in order of their numbers, the tree parents. */
  datatype Tree = Tree(num: seq<nat>, order: seq<nat>, parent: seq<int>)

  predicate InTree(t: Tree, v: nat) {
    v < |t.num| && t.num[v] < |t.order| && t.order[t.num[v]] == v
  }

  /** Shape only: numbers and visited blocks correspond, parents are visited and have smaller numbers. */
  ghost predicate Numbered(t: Tree) {
    && |t.parent| == |t.num|
    && (forall k :: 0 <= k < |t.order| ==> t.order[k] < |t.num| && t.num[t.order[k]] == k)
    && (forall v: nat :: InTree(t, v) ==>
          if t.num[v] == 0 then t.parent[v] == -1
          else 0 <= t.parent[v] < |t.num| && InTree(t, t.parent[v]) && t.num[t.parent[v]] < t.num[v])
  }

  /** `a` is `v` or one of its tree ancestors. */
  ghost predicate Anc(t: Tree, a: nat, v: nat)
    decreases if v < |t.num| then t.num[v] else 0
  {
    a == v
    || (v < |t.num| == |t.parent| && 0 <= t.parent[v] < |t.num| && t.num[t.parent[v]] < t.num[v] && Anc(t, a, t.parent[v]))
  }

  /** Every block is in the tree. */
  ghost predicate Spanning(t: Tree) {
    Numbered(t) && |t.order| == |t.num| && forall v :: 0 <= v < |t.num| ==> InTree(t, v)
  }

  /** What depth-first search leaves behind: a spanning tree numbered in preorder, in which every
      edge either goes to a smaller or equal number or down the tree. */
  ghost predicate DepthFirst(g: Graph, t: Tree) {
    && Spanning(t) && |t.num| == |g|
    && (forall v :: 0 <= v < |g| && t.num[v] > 0 ==> Preorder(g, t, v))
    && (forall v, w: nat :: 0 <= v < |g| && w in g[v] ==> w < |g| && (t.num[w] <= t.num[v] || Anc(t, v, w)))
  }

  /** The tree edge to `v` is an edge, and its source is an ancestor of the block numbered just before. */
  ghost predicate Preorder(g: Graph, t: Tree, v: nat) {
    && v < |t.num| == |t.parent| && 0 <= t.parent[v] < |g| && v in g[t.parent[v]]
    && 0 < t.num[v] <= |t.order| && Anc(t, t.parent[v], t.order[t.num[v] - 1])
  }

  /** The parts of `DepthFirst` that speak of one block. */
  lemma Before(g: Graph, t: Tree, v: nat) returns (parent: nat, before: nat)
    requires DepthFirst(g, t) && v < |g| && t.num[v] > 0
    ensures parent == t.parent[v] && parent < |g| && v in g[parent] && t.num[parent] < t.num[v]
    ensures before < |g| && t.num[before] == t.num[v] - 1 && Anc(t, parent, before)
    ensures forall a :: Anc(t, a, v) ==> a == v || Anc(t, a, parent)
  {
    assert InTree(t, v) && Preorder(g, t, v);
    parent, before := t.parent[v], t.order[t.num[v] - 1];
  }

  lemma SameNumber(g: Graph, t: Tree, x: nat, y: nat)
    requires DepthFirst(g, t) && x < |g| && y < |g| && t.num[x] == t.num[y]
    ensures x == y
  {
    assert InTree(t, x) && InTree(t, y);
  }

  lemma EdgeDown(g: Graph, t: Tree, x: nat, y: nat)
    requires DepthFirst(g, t) && x < |g| && y in g[x]
    ensures y < |g| && (t.num[y] <= t.num[x] || Anc(t, x, y))
  {
  }

  lemma {:induction false} AncNumber(t: Tree, a: nat, v: nat)
    requires v < |t.num| && Anc(t, a, v)
    ensures a < |t.num| && t.num[a] <= t.num[v]
    decreases t.num[v]
  {
    if a != v { AncNumber(t, a, t.parent[v]); }
  }

  lemma {:induction false} AncTransitive(t: Tree, a: nat, b: nat, v: nat)
    requires v < |t.num| && Anc(t, a, b) && Anc(t, b, v)
    ensures Anc(t, a, v)
    decreases t.num[v]
  {
    if b != v { AncTransitive(t, a, b, t.parent[v]); }
  }

  /** The descendants of a block are a contiguous range of numbers. */
  lemma {:induction false} Interval(g: Graph, t: Tree, a: nat, y: nat, x: nat)
    requires |t.num| == |g| && DepthFirst(g, t) && x < |g| && y < |g| && a < |g|
    requires Anc(t, a, x) && t.num[a] <= t.num[y] <= t.num[x]
    ensures Anc(t, a, y)
    decreases t.num[x]
  {
    hide DepthFirst, Anc;
    if t.num[y] == t.num[x] {
      SameNumber(g, t, x, y);
    } else {
      var parent, before := Before(g, t, x);
      AncTransitive(t, a, parent, before);
      Interval(g, t, a, y, before);
    }
  }

  /** A path that never goes below the number of its first block stays in that block's subtree. */
  lemma {:induction false} PathAbove(g: Graph, t: Tree, p: seq<nat>)
    requires |t.num| == |g| && DepthFirst(g, t) && Path(g, p)
    requires forall k :: 0 <= k < |p| ==> t.num[p[0]] <= t.num[p[k]]
    ensures Anc(t, p[0], p[|p| - 1])
  {
    hide DepthFirst;
    if |p| > 1 {
      var q := p[..|p| - 1];
      SubPath(g, p, 0, |p| - 1);
      PathAbove(g, t, q);
      var x, y := p[|p| - 2], p[|p| - 1];
      assert y in g[x];
      EdgeDown(g, t, x, y);
      if t.num[y] <= t.num[x] {
        Interval(g, t, p[0], y, x);
      } else {
        AncTransitive(t, p[0], x, y);
      }
    }
  }

  /** The tree path down from an ancestor. */
  lemma {:induction false} TreePath(g: Graph, t: Tree, a: nat, v: nat) returns (p: seq<nat>)
    requires |t.num| == |g| && DepthFirst(g, t) && v < |g| && Anc(t, a, v)
    ensures Path(g, p) && p[0] == a && p[|p| - 1] == v
    ensures a < |g| && forall k :: 0 <= k < |p| ==> t.num[a] <= t.num[p[k]] && Anc(t, p[k], v)
    decreases t.num[v]
  {
    hide DepthFirst;
    AncNumber(t, a, v);
    if a == v {
      p := [v];
    } else {
      var parent, _ := Before(g, t, v);
      var q := TreePath(g, t, a, parent);
      p := q + [v];
    }
  }
}
