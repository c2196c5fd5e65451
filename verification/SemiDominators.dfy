/** Semidominators by their definition over paths, and why taking minima over the predecessors'
    tree ancestors computes them. */
module SemiDominators {
  import opened ControlFlow
  import opened DfsTree

  /** A path of at least one edge from `v` to `w` whose interior has larger numbers than `w`. */
  ghost predicate SemiPath(g: Graph, t: Tree, v: nat, w: nat, p: seq<nat>)
    requires |t.num| == |g| && w < |g|
  {
    && Path(g, p) && |p| >= 2 && p[0] == v && p[|p| - 1] == w
    && forall k :: 0 < k < |p| - 1 ==> t.num[p[k]] > t.num[w]
  }

  /** `s` is the least number of a block with a semi-path to `w`. */
  ghost predicate IsSemi(g: Graph, t: Tree, w: nat, s: nat)
    requires |t.num| == |g| && w < |g|
  {
    && (exists p :: |p| > 0 && SemiPath(g, t, p[0], w, p) && t.num[p[0]] == s)
    && forall p :: |p| > 0 && SemiPath(g, t, p[0], w, p) ==> s <= t.num[p[0]]
  }

  /** The blocks numbered above `i` have their semidominators in `sd`; the others their own numbers. */
  ghost predicate SemiAbove(g: Graph, t: Tree, sd: seq<nat>, i: int)
    requires |t.num| == |g|
  {
    && |sd| == |g|
    && forall v :: 0 <= v < |g| ==> if t.num[v] > i && t.num[v] > 0 then IsSemi(g, t, v, sd[v]) else sd[v] == t.num[v]
  }

  /** What one predecessor `x` of `w` contributes: `u` is `x` itself when its number is not above that of
      `w`, and otherwise one of least semidominator among the ancestors of `x` above `w`. */
  ghost predicate Contributes(g: Graph, t: Tree, sd: seq<nat>, w: nat, x: nat, u: nat)
    requires |t.num| == |g| && |sd| == |g| && w < |g| && x < |g|
  {
    if t.num[x] <= t.num[w] then u == x
    else
      && u < |g| && Anc(t, u, x) && t.num[u] > t.num[w]
      && forall a :: 0 <= a < |g| && Anc(t, a, x) && t.num[a] > t.num[w] ==> sd[u] <= sd[a]
  }

  /** `r` is the minimum of the own number of `w` and of every predecessor's contribution. */
  ghost predicate MinimumOf(g: Graph, t: Tree, sd: seq<nat>, w: nat, r: nat)
    requires |t.num| == |g| && |sd| == |g| && w < |g|
  {
    && (r == t.num[w] || exists x: nat, u: nat :: x < |g| && w in g[x] && Contributes(g, t, sd, w, x, u) && u < |g| && r == sd[u])
    && r <= t.num[w]
    && forall x :: 0 <= x < |g| && w in g[x] ==>
         exists u: nat :: u < |g| && Contributes(g, t, sd, w, x, u) && r <= sd[u]
  }

  /** The first interior block of a semi-path that is an ancestor of the last one. */
  lemma FirstAncestor(g: Graph, t: Tree, w: nat, p: seq<nat>) returns (j: nat)
    requires |t.num| == |g| && DepthFirst(g, t) && w < |g| && |p| > 2 && SemiPath(g, t, p[0], w, p)
    ensures 1 <= j <= |p| - 2 && Anc(t, p[j], p[|p| - 2])
    ensures SemiPath(g, t, p[0], p[j], p[..j + 1])
  {
    hide DepthFirst;
    var x := p[|p| - 2];
    j := 1;
    while !Anc(t, p[j], x)
      invariant 1 <= j <= |p| - 2
      decreases |p| - j
      invariant forall k :: 1 <= k < j ==> !Anc(t, p[k], x)
    {
      j := j + 1;
    }
    forall k | 1 <= k < j ensures t.num[p[k]] > t.num[p[j]] {
      if t.num[p[k]] <= t.num[p[j]] {
        var m := LeastBefore(t, p, k, j);
        SubPath(g, p, m, j + 1);
        PathAbove(g, t, p[m..j + 1]);
        AncTransitive(t, p[m], p[j], x);
      }
    }
  }

  /** A position of least number in `p[1..j+1]`, before `j` when some position `k` there is as low as `j`. */
  lemma LeastBefore(t: Tree, p: seq<nat>, k: nat, j: nat) returns (m: nat)
    requires 1 <= k < j < |p| && forall i :: 0 <= i < |p| ==> p[i] < |t.num|
    requires t.num[p[k]] <= t.num[p[j]]
    ensures 1 <= m < j && forall i :: m <= i <= j ==> t.num[p[m]] <= t.num[p[i]]
  {
    m := k;
    var i := k + 1;
    while i <= j
      invariant k < i <= j + 1 && k <= m < j && m < i
      invariant t.num[p[m]] <= t.num[p[k]]
      invariant forall h :: m <= h < i ==> t.num[p[m]] <= t.num[p[h]]
    {
      if t.num[p[i]] < t.num[p[m]] { m := i; }
      i := i + 1;
    }
  }

  lemma AboveIsSemi(g: Graph, t: Tree, sd: seq<nat>, i: nat, v: nat)
    requires |t.num| == |g| && SemiAbove(g, t, sd, i) && v < |g| && t.num[v] > i
    ensures IsSemi(g, t, v, sd[v])
  {
  }

  lemma BelowIsOwn(g: Graph, t: Tree, sd: seq<nat>, i: nat)
    requires |t.num| == |g| && SemiAbove(g, t, sd, i)
    ensures |sd| == |g| && forall v :: 0 <= v < |g| && t.num[v] <= i ==> sd[v] == t.num[v]
  {
  }

  /** No semi-path starts below the computed minimum. */
  lemma LowerBound(g: Graph, t: Tree, sd: seq<nat>, w: nat, r: nat, p: seq<nat>)
    requires |t.num| == |g| && DepthFirst(g, t) && w < |g| && SemiAbove(g, t, sd, t.num[w]) && MinimumOf(g, t, sd, w, r)
    requires |p| > 0 && SemiPath(g, t, p[0], w, p)
    ensures r <= t.num[p[0]]
  {
    hide DepthFirst, SemiAbove;
    BelowIsOwn(g, t, sd, t.num[w]);
    var x := p[|p| - 2];
    assert w in g[x];
    var u: nat :| u < |g| && Contributes(g, t, sd, w, x, u) && r <= sd[u];
    if |p| > 2 {
      var j := FirstAncestor(g, t, w, p);
      assert sd[u] <= sd[p[j]];
      AboveIsSemi(g, t, sd, t.num[w], p[j]);
      var q := p[..j + 1];
      assert |q| > 0 && SemiPath(g, t, q[0], p[j], q);
    }
  }

  /** The tree parent alone keeps the minimum below the block's own number. */
  lemma BelowOwn(g: Graph, t: Tree, sd: seq<nat>, w: nat, r: nat)
    requires |t.num| == |g| && DepthFirst(g, t) && w < |g| && t.num[w] > 0
    requires SemiAbove(g, t, sd, t.num[w]) && MinimumOf(g, t, sd, w, r)
    ensures r < t.num[w]
  {
    var parent, _ := Before(g, t, w);
    hide DepthFirst, SemiAbove, Anc;
    BelowIsOwn(g, t, sd, t.num[w]);
    var u: nat :| u < |g| && Contributes(g, t, sd, w, parent, u) && r <= sd[u];
  }

  /** The computed minimum is the number of a block with a semi-path. */
  lemma Attained(g: Graph, t: Tree, sd: seq<nat>, w: nat, r: nat) returns (p: seq<nat>)
    requires |t.num| == |g| && DepthFirst(g, t) && w < |g| && t.num[w] > 0
    requires SemiAbove(g, t, sd, t.num[w]) && MinimumOf(g, t, sd, w, r)
    ensures |p| > 0 && SemiPath(g, t, p[0], w, p) && t.num[p[0]] == r
  {
    BelowOwn(g, t, sd, w, r);
    hide DepthFirst, SemiAbove;
    BelowIsOwn(g, t, sd, t.num[w]);
    var x: nat, u: nat :| x < |g| && w in g[x] && Contributes(g, t, sd, w, x, u) && u < |g| && r == sd[u];
    hide MinimumOf;
    if t.num[x] <= t.num[w] {
      p := EdgePath(g, t, x, w);
    } else {
      AboveIsSemi(g, t, sd, t.num[w], u);
      p := Through(g, t, w, x, u, r);
    }
  }

  lemma EdgePath(g: Graph, t: Tree, x: nat, w: nat) returns (p: seq<nat>)
    requires |t.num| == |g| && w < |g| && x < |g| && w in g[x]
    ensures |p| > 0 && SemiPath(g, t, p[0], w, p) && p[0] == x
  {
    p := [x, w];
  }

  lemma Through(g: Graph, t: Tree, w: nat, x: nat, u: nat, s: nat) returns (p: seq<nat>)
    requires |t.num| == |g| && DepthFirst(g, t) && w < |g| && x < |g| && w in g[x]
    requires u < |g| && Anc(t, u, x) && t.num[u] > t.num[w] && IsSemi(g, t, u, s)
    ensures |p| > 0 && SemiPath(g, t, p[0], w, p) && t.num[p[0]] == s
  {
    hide DepthFirst, Anc;
    var q :| |q| > 0 && SemiPath(g, t, q[0], u, q) && t.num[q[0]] == s;
    var d := TreePath(g, t, u, x);
    p := Join(g, t, w, q, d);
  }

  /** A semi-path to `u`, the tree path from `u` to `x` and the edge to `w` make a semi-path to `w`. */
  lemma Join(g: Graph, t: Tree, w: nat, q: seq<nat>, d: seq<nat>) returns (p: seq<nat>)
    requires |t.num| == |g| && w < |g| && Path(g, d) && w in g[d[|d| - 1]]
    requires d[0] < |g| && |q| > 0 && SemiPath(g, t, q[0], d[0], q) && t.num[d[0]] > t.num[w]
    requires forall k :: 0 <= k < |d| ==> t.num[d[0]] <= t.num[d[k]]
    ensures |p| > 0 && p[0] == q[0] && SemiPath(g, t, p[0], w, p)
  {
    var m := |q| - 1;
    var b := q[..m];
    p := b + d + [w];
    forall k | 0 <= k < |p| - 1 ensures p[k + 1] in g[p[k]] {
      if k + 1 < m {
        assert p[k] == q[k] && p[k + 1] == q[k + 1];
      } else if k + 1 == m {
        assert p[k] == q[k] && p[k + 1] == d[0] == q[k + 1];
      } else if k + 1 < m + |d| {
        assert p[k] == d[k - m] && p[k + 1] == d[k - m + 1];
      } else {
        assert p[k] == d[|d| - 1] && p[k + 1] == w;
      }
    }
    forall k | 0 < k < |p| - 1 ensures t.num[p[k]] > t.num[w] {
      if k < m { assert p[k] == q[k]; } else { assert p[k] == d[k - m]; }
    }
  }

  /** The recurrence computes the semidominator. */
  lemma MinimumIsSemi(g: Graph, t: Tree, sd: seq<nat>, w: nat, r: nat)
    requires |t.num| == |g| && DepthFirst(g, t) && w < |g| && t.num[w] > 0
    requires SemiAbove(g, t, sd, t.num[w]) && MinimumOf(g, t, sd, w, r)
    ensures IsSemi(g, t, w, r)
  {
    var p := Attained(g, t, sd, w, r);
    forall p' | |p'| > 0 && SemiPath(g, t, p'[0], w, p') ensures r <= t.num[p'[0]] {
      LowerBound(g, t, sd, w, r, p');
    }
  }
}
