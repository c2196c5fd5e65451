/** Dominance by paths, and what semidominators say about it: the block of least semidominator between a block
    and its semidominator decides where the immediate dominator is. */
module ImmediateDominators {
  import opened ControlFlow
  import opened DfsTree
  import opened SemiDominators

  ghost predicate Strictly(g: Graph, entry: nat, d: nat, v: nat) { d != v && Dominates(g, entry, d, v) }

  /** The strict dominator that all the others dominate. */
  ghost predicate IsIdom(g: Graph, entry: nat, d: nat, v: nat) {
    Strictly(g, entry, d, v) && forall c: nat :: Strictly(g, entry, c, v) ==> Dominates(g, entry, c, d)
  }

  /** The depth-first tree starts at the entry, and the table holds the semidominators. */
  ghost predicate Ranked(g: Graph, t: Tree, sd: seq<nat>, entry: nat) {
    && |t.num| == |sd| == |g| && DepthFirst(g, t) && entry < |g| && t.num[entry] == 0
    && forall v :: 0 <= v < |g| && t.num[v] > 0 ==> IsSemi(g, t, v, sd[v]) && sd[v] < t.num[v]
  }

  // ----- Paths -----

  /** If `a` can be reached past `d`, so can what a path without `d` leads to from there. */
  lemma Bypass(g: Graph, entry: nat, d: nat, p: seq<nat>, q: seq<nat>)
    requires Path(g, p) && Path(g, q) && p[0] == entry && p[|p| - 1] == q[0] && d !in p && d !in q
    ensures !Dominates(g, entry, d, q[|q| - 1])
  {
    JoinAt(g, p, q);
    assert From(g, p + q[1..], entry, q[|q| - 1]) && d !in p + q[1..];
  }

  /** The entry is an ancestor of everything. */
  lemma EntryAbove(g: Graph, t: Tree, sd: seq<nat>, entry: nat, v: nat)
    requires Ranked(g, t, sd, entry) && v < |g|
    ensures Anc(t, entry, v)
    decreases t.num[v]
  {
    hide IsSemi;
    if t.num[v] == 0 {
      SameNumber(g, t, v, entry);
    } else {
      var parent, _ := Before(g, t, v);
      hide DepthFirst;
      EntryAbove(g, t, sd, entry, parent);
      AncStep(g, t, v, parent);
    }
  }

  lemma AncStep(g: Graph, t: Tree, v: nat, parent: nat)
    requires |t.num| == |g| && DepthFirst(g, t) && v < |g| && t.num[v] > 0 && parent == t.parent[v]
    ensures forall a :: Anc(t, a, parent) ==> Anc(t, a, v)
  {
    var q, _ := Before(g, t, v);
  }

  /** The tree path from the entry: only ancestors. */
  lemma DownTo(g: Graph, t: Tree, sd: seq<nat>, entry: nat, v: nat) returns (p: seq<nat>)
    requires Ranked(g, t, sd, entry) && v < |g|
    ensures From(g, p, entry, v) && forall x :: x in p ==> x < |g| && Anc(t, x, v) && t.num[x] <= t.num[v]
  {
    EntryAbove(g, t, sd, entry, v);
    hide DepthFirst, IsSemi;
    p := TreePath(g, t, entry, v);
    forall x | x in p ensures t.num[x] <= t.num[v] { AncNumber(t, x, v); }
  }

  /** The block of a number. */
  function At(t: Tree, n: nat): nat
    requires n < |t.order|
  {
    t.order[n]
  }

  lemma AtNumber(g: Graph, t: Tree, n: nat)
    requires |t.num| == |g| && DepthFirst(g, t) && n < |g|
    ensures n < |t.order| && At(t, n) < |g| && t.num[At(t, n)] == n
    ensures forall v: nat :: v < |g| && t.num[v] == n ==> v == At(t, n)
  {
    forall v: nat | v < |g| && t.num[v] == n ensures v == At(t, n) { assert InTree(t, v); }
  }

  lemma Below(g: Graph, t: Tree, sd: seq<nat>, entry: nat, v: nat)
    requires Ranked(g, t, sd, entry) && v < |g|
    ensures t.num[v] < |g| && (t.num[v] > 0 ==> sd[v] < t.num[v])
  {
    assert InTree(t, v);
  }

  lemma SemiExists(g: Graph, t: Tree, sd: seq<nat>, entry: nat, v: nat) returns (p: seq<nat>)
    requires Ranked(g, t, sd, entry) && v < |g| && t.num[v] > 0
    ensures |p| > 0 && SemiPath(g, t, p[0], v, p) && t.num[p[0]] == sd[v] < t.num[v] < |g|
  {
    Below(g, t, sd, entry, v);
    hide DepthFirst;
    assert IsSemi(g, t, v, sd[v]);
    p :| |p| > 0 && SemiPath(g, t, p[0], v, p) && t.num[p[0]] == sd[v];
  }

  /** The semidominator of `v`, the semi-path from it, and that it is an ancestor. */
  lemma Semi(g: Graph, t: Tree, sd: seq<nat>, entry: nat, v: nat) returns (w: nat, p: seq<nat>)
    requires Ranked(g, t, sd, entry) && v < |g| && t.num[v] > 0
    ensures sd[v] < |t.order| && w == At(t, sd[v]) && w < |g| && t.num[w] == sd[v] < t.num[v]
    ensures SemiPath(g, t, w, v, p) && Anc(t, w, v)
  {
    hide Ranked, DepthFirst, Anc, IsSemi;
    Sizes(g, t, sd, entry);
    p := SemiExists(g, t, sd, entry, v);
    AtNumber(g, t, sd[v]);
    w := p[0];
    PathAbove(g, t, p);
  }

  /** The least start of a semi-path is the semidominator. */
  lemma SemiLeast(g: Graph, t: Tree, sd: seq<nat>, entry: nat, v: nat, p: seq<nat>)
    requires Ranked(g, t, sd, entry) && v < |g| && t.num[v] > 0 && |p| > 0 && SemiPath(g, t, p[0], v, p)
    ensures sd[v] <= t.num[p[0]]
  {
    assert IsSemi(g, t, v, sd[v]);
  }

  // ----- Where dominators are -----

  /** A strict dominator is an ancestor, no lower than the semidominator. */
  lemma DominatorAbove(g: Graph, t: Tree, sd: seq<nat>, entry: nat, c: nat, v: nat)
    requires Ranked(g, t, sd, entry) && v < |g| && t.num[v] > 0 && Strictly(g, entry, c, v)
    ensures c < |g| && Anc(t, c, v) && t.num[c] <= sd[v]
  {
    hide Ranked, Anc, Dominates;
    Sizes(g, t, sd, entry);
    var down := DownTo(g, t, sd, entry, v);
    InPath(g, entry, c, v, down);
    var w, semi := Semi(g, t, sd, entry, v);
    var q := DownTo(g, t, sd, entry, w);
    JoinAt(g, q, semi);
    InPath(g, entry, c, v, q + semi[1..]);
    if c in semi { OnSemiPath(g, t, w, v, semi, c); }
  }

  lemma OnSemiPath(g: Graph, t: Tree, w: nat, v: nat, p: seq<nat>, x: nat)
    requires |t.num| == |g| && v < |g| && SemiPath(g, t, w, v, p) && x in p
    ensures x < |g| && (x == w || x == v || t.num[x] > t.num[v])
  {
  }

  lemma Sizes(g: Graph, t: Tree, sd: seq<nat>, entry: nat)
    requires Ranked(g, t, sd, entry)
    ensures |t.num| == |sd| == |g| && DepthFirst(g, t) && entry < |g| && t.num[entry] == 0
  {
  }

  lemma InPath(g: Graph, entry: nat, d: nat, v: nat, p: seq<nat>)
    requires Dominates(g, entry, d, v) && From(g, p, entry, v)
    ensures d in p
  {
  }

  /** A block above `v` in the tree is dominated by what dominates `v` from further up. */
  lemma DominatesBetween(g: Graph, t: Tree, sd: seq<nat>, entry: nat, c: nat, u: nat, v: nat)
    requires Ranked(g, t, sd, entry) && v < |g| && u < |g| && c < |g| && Dominates(g, entry, c, v)
    requires Anc(t, u, v) && t.num[c] < t.num[u]
    ensures Dominates(g, entry, c, u)
  {
    hide Ranked, Anc;
    Sizes(g, t, sd, entry);
    var q := TreePath(g, t, u, v);
    forall p | From(g, p, entry, u) ensures c in p {
      if c !in p { Bypass(g, entry, c, p, q); }
    }
  }

  /** A path from the entry gets to `v` at or below `d` through a semi-path from above `d` to an ancestor of `v`. */
  lemma Crossing(g: Graph, t: Tree, sd: seq<nat>, entry: nat, d: nat, v: nat, p: seq<nat>) returns (i: nat, j: nat)
    requires Ranked(g, t, sd, entry) && v < |g| && d < |g| && Anc(t, d, v) && t.num[d] > 0 && From(g, p, entry, v)
    ensures i < j < |p| && p[i] < |g| && p[j] < |g| && t.num[p[i]] < t.num[d] <= t.num[p[j]] && Anc(t, p[j], v) && Anc(t, d, p[j])
    ensures SemiPath(g, t, p[i], p[j], p[i..j + 1])
  {
    hide Ranked, Anc, DepthFirst;
    Sizes(g, t, sd, entry);
    AncNumber(t, d, v);
    i := LastBelow(t, p, t.num[d]);
    j := FirstUp(t, p, i + 1, v);
    AncNumber(t, p[j], v);
    Interval(g, t, d, p[j], v);
    forall k | i < k < j ensures t.num[p[k]] > t.num[p[j]] { HigherBefore(g, t, p, i + 1, k, j, v); }
    Segment(g, t, p, i, j);
  }

  /** The first ancestor of `v` on a path to `v`, from `lo` on. */
  lemma FirstUp(t: Tree, p: seq<nat>, lo: nat, v: nat) returns (j: nat)
    requires lo < |p| && p[|p| - 1] == v
    ensures lo <= j < |p| && Anc(t, p[j], v) && forall k :: lo <= k < j ==> !Anc(t, p[k], v)
  {
    SelfAnc(t, v);
    j := lo;
    while !Anc(t, p[j], v)
      invariant lo <= j < |p| && forall k :: lo <= k < j ==> !Anc(t, p[k], v)
      decreases |p| - j
    {
      j := j + 1;
    }
  }

  /** What comes before the first ancestor has a larger number. */
  lemma HigherBefore(g: Graph, t: Tree, p: seq<nat>, lo: nat, k: nat, j: nat, v: nat)
    requires |t.num| == |g| && DepthFirst(g, t) && Path(g, p) && v < |g| && lo <= k < j < |p| && Anc(t, p[j], v)
    requires forall i :: lo <= i < j ==> !Anc(t, p[i], v)
    ensures t.num[p[k]] > t.num[p[j]]
  {
    hide Anc, DepthFirst;
    if t.num[p[k]] <= t.num[p[j]] {
      var m := LowestBefore(t, p, lo, k, j);
      SubPath(g, p, m, j + 1);
      PathAbove(g, t, p[m..j + 1]);
      AncTransitive(t, p[m], p[j], v);
    }
  }

  lemma Segment(g: Graph, t: Tree, p: seq<nat>, i: nat, j: nat)
    requires |t.num| == |g| && Path(g, p) && i < j < |p| && forall k :: i < k < j ==> t.num[p[k]] > t.num[p[j]]
    ensures SemiPath(g, t, p[i], p[j], p[i..j + 1])
  {
    SubPath(g, p, i, j + 1);
    var q := p[i..j + 1];
    forall k | 0 < k < |q| - 1 ensures t.num[q[k]] > t.num[p[j]] { assert q[k] == p[i + k]; }
  }

  lemma SelfAnc(t: Tree, v: nat)
    ensures Anc(t, v, v)
  {
  }

  /** The last position below a number, when the first one is and the last one is not. */
  lemma LastBelow(t: Tree, p: seq<nat>, n: nat) returns (i: nat)
    requires |p| > 0 && (forall k :: 0 <= k < |p| ==> p[k] < |t.num|) && t.num[p[0]] < n <= t.num[p[|p| - 1]]
    ensures i + 1 < |p| && t.num[p[i]] < n && forall k :: i < k < |p| ==> t.num[p[k]] >= n
  {
    i := |p| - 2;
    while t.num[p[i]] >= n
      invariant 0 <= i < |p| - 1 && forall k :: i < k < |p| ==> t.num[p[k]] >= n
      decreases i
    {
      i := i - 1;
    }
  }

  /** A position of least number from `lo` to `j`, before `j` when some position `k` there is as low. */
  lemma LowestBefore(t: Tree, p: seq<nat>, lo: nat, k: nat, j: nat) returns (m: nat)
    requires lo <= k < j < |p| && (forall i :: 0 <= i < |p| ==> p[i] < |t.num|) && t.num[p[k]] <= t.num[p[j]]
    ensures lo <= m < j && forall i :: m <= i <= j ==> t.num[p[m]] <= t.num[p[i]]
  {
    m := k;
    var i := k + 1;
    while i <= j
      invariant k < i <= j + 1 && k <= m < j && m < i && t.num[p[m]] <= t.num[p[k]]
      invariant forall h :: m <= h < i ==> t.num[p[m]] <= t.num[p[h]]
    {
      if t.num[p[i]] < t.num[p[m]] { m := i; }
      i := i + 1;
    }
  }

  // ----- The two cases -----

  /** `u` is an ancestor of `v` strictly below the semidominator of `v`. */
  ghost predicate Between(g: Graph, t: Tree, sd: seq<nat>, u: nat, v: nat)
    requires |t.num| == |sd| == |g| && v < |g|
  {
    u < |g| && Anc(t, u, v) && t.num[u] > sd[v]
  }

  /** Nothing between reaches past the semidominator. */
  ghost predicate NothingPast(g: Graph, t: Tree, sd: seq<nat>, v: nat)
    requires |t.num| == |sd| == |g| && v < |g|
  {
    forall a: nat :: Between(g, t, sd, a, v) ==> sd[a] >= sd[v]
  }

  lemma NotPast(g: Graph, t: Tree, sd: seq<nat>, v: nat, a: nat)
    requires |t.num| == |sd| == |g| && v < |g| && NothingPast(g, t, sd, v) && a < |g| && Anc(t, a, v) && t.num[a] > sd[v]
    ensures sd[a] >= sd[v]
  {
    assert Between(g, t, sd, a, v);
  }

  /** Then the semidominator dominates `v`. */
  lemma SemiDominates(g: Graph, t: Tree, sd: seq<nat>, entry: nat, v: nat, w: nat)
    requires Ranked(g, t, sd, entry) && v < |g| && t.num[v] > 0 && NothingPast(g, t, sd, v)
    requires sd[v] < |t.order| && w == At(t, sd[v])
    ensures Dominates(g, entry, w, v)
  {
    hide Ranked, Anc, IsSemi, NothingPast, DepthFirst, SemiPath;
    Sizes(g, t, sd, entry);
    var w', _ := Semi(g, t, sd, entry, v);
    forall p | From(g, p, entry, v) ensures w in p {
      if t.num[w] == 0 {
        SameNumber(g, t, w, entry);
      } else {
        var i, j := Crossing(g, t, sd, entry, w, v, p);
        SemiFrom(g, t, sd, entry, p, i, j);
        if t.num[p[j]] == t.num[w] {
          SameNumber(g, t, p[j], w);
        } else {
          NotPast(g, t, sd, v, p[j]);
        }
      }
    }
  }

  /** A semi-path within a path bounds the semidominator of its end. */
  lemma SemiFrom(g: Graph, t: Tree, sd: seq<nat>, entry: nat, p: seq<nat>, i: nat, j: nat)
    requires Ranked(g, t, sd, entry) && i < j < |p| && p[i] < |g| && p[j] < |g| && t.num[p[j]] > 0
    requires SemiPath(g, t, p[i], p[j], p[i..j + 1])
    ensures sd[p[j]] <= t.num[p[i]]
  {
    hide Ranked;
    Sizes(g, t, sd, entry);
    SemiLeast(g, t, sd, entry, p[j], p[i..j + 1]);
  }

  /** And is its immediate dominator. */
  lemma SemiIsIdom(g: Graph, t: Tree, sd: seq<nat>, entry: nat, v: nat, w: nat)
    requires Ranked(g, t, sd, entry) && v < |g| && t.num[v] > 0 && NothingPast(g, t, sd, v)
    requires sd[v] < |t.order| && w == At(t, sd[v])
    ensures IsIdom(g, entry, w, v)
  {
    hide Ranked, Anc, NothingPast, Dominates, DepthFirst, SemiPath;
    Sizes(g, t, sd, entry);
    SemiDominates(g, t, sd, entry, v, w);
    var w', _ := Semi(g, t, sd, entry, v);
    forall c: nat | Strictly(g, entry, c, v) ensures Dominates(g, entry, c, w) {
      DominatorAbove(g, t, sd, entry, c, v);
      if t.num[c] == t.num[w] {
        SameNumber(g, t, c, w);
        SelfDominates(g, entry, w);
      } else {
        DominatesBetween(g, t, sd, entry, c, w, v);
      }
    }
  }

  lemma SelfDominates(g: Graph, entry: nat, w: nat)
    ensures Dominates(g, entry, w, w)
  {
  }

  /** If something between reaches past it, the semidominator does not even dominate `v`. */
  lemma SemiBypassed(g: Graph, t: Tree, sd: seq<nat>, entry: nat, v: nat, w: nat, u: nat)
    requires Ranked(g, t, sd, entry) && v < |g| && t.num[v] > 0 && Between(g, t, sd, u, v) && sd[u] < sd[v]
    requires sd[v] < |t.order| && w == At(t, sd[v])
    ensures !Dominates(g, entry, w, v)
  {
    hide Ranked, Anc;
    Sizes(g, t, sd, entry);
    var w', _ := Semi(g, t, sd, entry, v);
    var s, semi := Semi(g, t, sd, entry, u);
    var p := DownTo(g, t, sd, entry, s);
    var q := TreePath(g, t, u, v);
    if w in semi { OnSemiPath(g, t, s, u, semi, w); }
    JoinAt(g, p, semi);
    Bypass(g, entry, w, p + semi[1..], q);
  }

  /** `u` is between and has the least semidominator there, past that of `v`. */
  ghost predicate Decides(g: Graph, t: Tree, sd: seq<nat>, u: nat, v: nat)
    requires |t.num| == |sd| == |g| && v < |g|
  {
    && Between(g, t, sd, u, v) && sd[u] < sd[v]
    && forall a: nat :: Between(g, t, sd, a, v) ==> sd[u] <= sd[a]
  }

  lemma DecidesAbove(g: Graph, t: Tree, sd: seq<nat>, entry: nat, u: nat, v: nat)
    requires Ranked(g, t, sd, entry) && v < |g| && t.num[v] > 0 && Decides(g, t, sd, u, v)
    ensures 0 < t.num[u] < t.num[v]
  {
    hide Ranked, Anc;
    Sizes(g, t, sd, entry);
    AncNumber(t, u, v);
    if t.num[u] == t.num[v] { SameNumber(g, t, u, v); }
  }

  lemma DominatesDecider(g: Graph, t: Tree, sd: seq<nat>, entry: nat, u: nat, v: nat, c: nat)
    requires Ranked(g, t, sd, entry) && v < |g| && t.num[v] > 0 && Decides(g, t, sd, u, v) && Strictly(g, entry, c, v)
    ensures Strictly(g, entry, c, u)
  {
    hide Ranked, Anc, Dominates;
    Sizes(g, t, sd, entry);
    DominatorAbove(g, t, sd, entry, c, v);
    DominatesBetween(g, t, sd, entry, c, u, v);
  }

  lemma DeciderDominated(g: Graph, t: Tree, sd: seq<nat>, entry: nat, u: nat, v: nat, d: nat)
    requires Ranked(g, t, sd, entry) && v < |g| && t.num[v] > 0 && Decides(g, t, sd, u, v) && Strictly(g, entry, d, u)
    ensures Strictly(g, entry, d, v)
  {
    hide Ranked, Anc, Dominates;
    Sizes(g, t, sd, entry);
    DecidesAbove(g, t, sd, entry, u, v);
    DominatorAbove(g, t, sd, entry, d, u);
    AncTransitive(t, d, u, v);
    Below(g, t, sd, entry, v);
    assert Dominates(g, entry, d, v) by {
      forall p | From(g, p, entry, v) ensures d in p {
        PathThroughDecider(g, t, sd, entry, u, v, d, p);
      }
      DominatesIf(g, entry, d, v);
    }
  }

  lemma DominatesIf(g: Graph, entry: nat, d: nat, v: nat)
    requires forall p :: From(g, p, entry, v) ==> d in p
    ensures Dominates(g, entry, d, v)
  {
  }

  lemma PathThroughDecider(g: Graph, t: Tree, sd: seq<nat>, entry: nat, u: nat, v: nat, d: nat, p: seq<nat>)
    requires Ranked(g, t, sd, entry) && v < |g| && t.num[v] > 0 && Decides(g, t, sd, u, v)
    requires Dominates(g, entry, d, u) && d < |g| && Anc(t, d, v) && Anc(t, d, u) && t.num[d] <= sd[u] && From(g, p, entry, v)
    ensures d in p
  {
    hide Ranked, Anc, Dominates, Decides, DepthFirst, SemiPath;
    Sizes(g, t, sd, entry);
    if t.num[d] == 0 {
      SameNumber(g, t, d, entry);
    } else {
      var i, j := Crossing(g, t, sd, entry, d, v, p);
      SemiFrom(g, t, sd, entry, p, i, j);
      if t.num[p[j]] == t.num[d] {
        SameNumber(g, t, p[j], d);
      } else if t.num[p[j]] > sd[v] {
        DecidesLeast(g, t, sd, u, v, p[j]);
      } else {
        PastDominator(g, t, sd, entry, u, v, d, p[i], p[j], p[i..j + 1]);
      }
    }
  }

  lemma DecidesLeast(g: Graph, t: Tree, sd: seq<nat>, u: nat, v: nat, a: nat)
    requires |t.num| == |sd| == |g| && v < |g| && Decides(g, t, sd, u, v) && a < |g| && Anc(t, a, v) && t.num[a] > sd[v]
    ensures u < |g| && sd[u] <= sd[a]
  {
    assert Between(g, t, sd, a, v);
  }

  /** From the entry down to `x`, along a semi-path to `y`, and down to `u`: `d` is not on the way. */
  lemma PastDominator(g: Graph, t: Tree, sd: seq<nat>, entry: nat, u: nat, v: nat, d: nat, x: nat, y: nat, semi: seq<nat>)
    requires Ranked(g, t, sd, entry) && v < |g| && t.num[v] > 0 && Decides(g, t, sd, u, v) && d < |g|
    requires x < |g| && y < |g| && SemiPath(g, t, x, y, semi) && Anc(t, y, v)
    requires t.num[x] < t.num[d] < t.num[y] <= sd[v]
    ensures !Dominates(g, entry, d, u)
  {
    hide Ranked, Anc, Dominates, DepthFirst;
    Sizes(g, t, sd, entry);
    AncNumber(t, u, v);
    Interval(g, t, y, u, v);
    var down := DownTo(g, t, sd, entry, x);
    JoinAt(g, down, semi);
    var rest := TreePath(g, t, y, u);
    if d in semi { OnSemiPath(g, t, x, y, semi, d); }
    Bypass(g, entry, d, down + semi[1..], rest);
  }

  /** The deciding block and `v` have the same immediate dominator, and it is not the semidominator of `v`. */
  lemma SameIdom(g: Graph, t: Tree, sd: seq<nat>, entry: nat, u: nat, v: nat, d: nat)
    requires Ranked(g, t, sd, entry) && v < |g| && t.num[v] > 0 && Decides(g, t, sd, u, v)
    ensures IsIdom(g, entry, d, v) <==> IsIdom(g, entry, d, u)
  {
    hide Ranked, Decides, Strictly;
    forall c: nat ensures Strictly(g, entry, c, v) <==> Strictly(g, entry, c, u) {
      if Strictly(g, entry, c, v) { DominatesDecider(g, t, sd, entry, u, v, c); }
      if Strictly(g, entry, c, u) { DeciderDominated(g, t, sd, entry, u, v, c); }
    }
  }

  // ----- What the algorithm chooses -----

  predicate Tables(t: Tree, sd: seq<nat>) { |sd| == |t.num| == |t.parent| }

  /** The ancestor of `x` numbered above `s` that has the least semidominator, the lowest one of several. */
  function Best(t: Tree, sd: seq<nat>, x: nat, s: nat): (u: nat)
    requires Tables(t, sd) && x < |sd|
    ensures u < |sd|
    decreases t.num[x]
  {
    var p := t.parent[x];
    if 0 <= p < |sd| && s < t.num[p] < t.num[x] then
      var b := Best(t, sd, p, s);
      if sd[b] < sd[x] then b else x
    else x
  }

  /** The semidominator of `v`, as far as the tables are in range. */
  function SemiBlock(t: Tree, sd: seq<nat>, v: nat): (w: nat)
    requires Tables(t, sd) && v < |sd|
    ensures w < |sd|
  {
    if sd[v] < |t.order| && t.order[sd[v]] < |sd| then t.order[sd[v]] else v
  }

  /** The tentative choice: Find's answer over a path that includes the semidominator itself. */
  function Chosen(t: Tree, sd: seq<nat>, v: nat): (r: nat)
    requires Tables(t, sd) && v < |sd|
    ensures r < |sd|
  {
    var w, u := SemiBlock(t, sd, v), Best(t, sd, v, sd[v]);
    if sd[v] == 0 || sd[w] < sd[u] then w else u
  }

  /** The choice in the end: that of the block chosen, unless it is the semidominator. */
  function Settled(t: Tree, sd: seq<nat>, v: nat): nat
    requires Tables(t, sd) && v < |sd|
    decreases t.num[v]
  {
    var r := Chosen(t, sd, v);
    if r != SemiBlock(t, sd, v) && t.num[r] < t.num[v] then Settled(t, sd, r) else r
  }

  /** When it is the immediate dominator: nothing between reaches past the semidominator; or what reaches furthest
      reaches as far as the semidominator's own, and is itself settled right. */
  predicate SettledRight(t: Tree, sd: seq<nat>, v: nat)
    requires Tables(t, sd) && v < |sd|
    decreases t.num[v]
  {
    var w, u := SemiBlock(t, sd, v), Best(t, sd, v, sd[v]);
    sd[u] >= sd[v] || (sd[u] <= sd[w] && t.num[u] < t.num[v] && SettledRight(t, sd, u))
  }

  lemma {:induction false} BestIs(g: Graph, t: Tree, sd: seq<nat>, x: nat, s: nat)
    requires |t.num| == |sd| == |g| && DepthFirst(g, t) && x < |g| && t.num[x] > s
    ensures Tables(t, sd)
    ensures var u := Best(t, sd, x, s);
      && Anc(t, u, x) && t.num[u] > s
      && forall a: nat :: a < |g| && Anc(t, a, x) && t.num[a] > s ==>
           sd[u] <= sd[a] && (t.num[a] > t.num[u] ==> sd[u] < sd[a])
    decreases t.num[x]
  {
    hide DepthFirst, Anc;
    Parents(g, t);
    var p := ParentOf(g, t, x);
    if t.num[p] > s {
      BestIs(g, t, sd, p, s);
    }
  }

  /** The ancestors of a block are the block and those of its parent, which are numbered below it. */
  lemma ParentOf(g: Graph, t: Tree, x: nat) returns (p: nat)
    requires |t.num| == |g| && DepthFirst(g, t) && x < |g| && t.num[x] > 0
    ensures x < |t.parent| && p == t.parent[x] && p < |g| && t.num[p] < t.num[x]
    ensures forall a: nat {:trigger Anc(t, a, x)} :: Anc(t, a, x) <==> a == x || Anc(t, a, p)
    ensures forall a: nat {:trigger Anc(t, a, p)} :: Anc(t, a, p) ==> a < |g| && t.num[a] <= t.num[p] && Anc(t, a, x)
  {
    var b;
    p, b := Before(g, t, x);
    AncStep(g, t, x, p);
    SelfAnc(t, x);
    forall a: nat | Anc(t, a, p) ensures a < |g| && t.num[a] <= t.num[p] { AncNumber(t, a, p); }
  }

  lemma Parents(g: Graph, t: Tree)
    requires |t.num| == |g| && DepthFirst(g, t)
    ensures |t.parent| == |g| && |t.order| == |g|
  {
  }

  /** The best block decides, or nothing reaches past. */
  lemma BestDecides(g: Graph, t: Tree, sd: seq<nat>, entry: nat, v: nat)
    requires Ranked(g, t, sd, entry) && v < |g| && t.num[v] > 0
    ensures Tables(t, sd)
    ensures var u := Best(t, sd, v, sd[v]);
      u < |g| && if sd[u] >= sd[v] then NothingPast(g, t, sd, v) else Decides(g, t, sd, u, v)
  {
    hide DepthFirst, IsSemi, Best;
    BestIs(g, t, sd, v, sd[v]);
  }

  /** The block settled on is the immediate dominator exactly under that condition. */
  lemma {:induction false} SettledIff(g: Graph, t: Tree, sd: seq<nat>, entry: nat, v: nat)
    requires Ranked(g, t, sd, entry) && v < |g| && t.num[v] > 0
    ensures Tables(t, sd) && (IsIdom(g, entry, Settled(t, sd, v), v) <==> SettledRight(t, sd, v))
    decreases t.num[v]
  {
    hide Ranked, Best, IsIdom, NothingPast, Decides, DepthFirst, IsSemi, SemiPath;
    Sizes(g, t, sd, entry);
    BestDecides(g, t, sd, entry, v);
    var w, _ := Semi(g, t, sd, entry, v);
    var u := Best(t, sd, v, sd[v]);
    assert SemiBlock(t, sd, v) == w;
    if sd[u] >= sd[v] {
      Below(g, t, sd, entry, w);
      SemiIsIdom(g, t, sd, entry, v, w);
    } else if sd[w] < sd[u] {
      NotIdom(g, t, sd, entry, v, w, u);
    } else {
      DecidesAbove(g, t, sd, entry, u, v);
      DecidesBelow(g, t, sd, u, v);
      SameIdom(g, t, sd, entry, u, v, Settled(t, sd, u));
      SettledIff(g, t, sd, entry, u);
    }
  }

  /** Something between `v` and its semidominator reaches past it, but the semidominator itself reaches further. */
  predicate Missed(t: Tree, sd: seq<nat>, v: nat)
    requires Tables(t, sd) && v < |sd|
  {
    sd[SemiBlock(t, sd, v)] < sd[Best(t, sd, v, sd[v])] < sd[v]
  }

  /** All immediate dominators are right if and only if no block is missed. */
  lemma {:induction false} AllSettledIff(g: Graph, t: Tree, sd: seq<nat>, entry: nat)
    requires Ranked(g, t, sd, entry)
    ensures Tables(t, sd)
    ensures (forall v: nat :: v < |g| && t.num[v] > 0 ==> IsIdom(g, entry, Settled(t, sd, v), v)) <==>
      forall v: nat :: v < |g| && t.num[v] > 0 ==> !Missed(t, sd, v)
  {
    hide Ranked, Best, IsIdom, DepthFirst, SemiBlock, Settled;
    Sizes(g, t, sd, entry);
    Parents(g, t);
    forall v: nat | v < |g| && t.num[v] > 0 ensures IsIdom(g, entry, Settled(t, sd, v), v) <==> SettledRight(t, sd, v) {
      SettledIff(g, t, sd, entry, v);
    }
    if forall v: nat :: v < |g| && t.num[v] > 0 ==> !Missed(t, sd, v) {
      forall v: nat | v < |g| && t.num[v] > 0 ensures SettledRight(t, sd, v) { NoneMissed(g, t, sd, entry, v); }
    }
  }

  lemma {:induction false} NoneMissed(g: Graph, t: Tree, sd: seq<nat>, entry: nat, v: nat)
    requires Ranked(g, t, sd, entry) && Tables(t, sd) && v < |g| && t.num[v] > 0
    requires forall x: nat :: x < |g| && t.num[x] > 0 ==> !Missed(t, sd, x)
    ensures SettledRight(t, sd, v)
    decreases t.num[v]
  {
    hide Ranked, Best, DepthFirst, SemiBlock, Decides, NothingPast;
    Sizes(g, t, sd, entry);
    BestDecides(g, t, sd, entry, v);
    var u := Best(t, sd, v, sd[v]);
    assert !Missed(t, sd, v);
    if sd[u] < sd[v] {
      DecidesAbove(g, t, sd, entry, u, v);
      NoneMissed(g, t, sd, entry, u);
    }
  }

  // ----- A graph where it is not -----

  const CROSSED: Graph := [[1, 2], [2, 3], [3, 4], [4], []]
  const CROSSED_TREE := Tree([0, 1, 2, 3, 4], [0, 1, 2, 3, 4], [-1, 0, 1, 2, 3])
  const CROSSED_SEMI: seq<nat> := [0, 0, 0, 1, 2]

  /** Block 4 settles on block 2, although 0, 1, 3, 4 is a path. */
  lemma CrossedIsWrong()
    ensures Tables(CROSSED_TREE, CROSSED_SEMI) && Missed(CROSSED_TREE, CROSSED_SEMI, 4) && Settled(CROSSED_TREE, CROSSED_SEMI, 4) == 2
    ensures From(CROSSED, [0, 1, 3, 4], 0, 4) && !Dominates(CROSSED, 0, 2, 4)
    ensures Ranked(CROSSED, CROSSED_TREE, CROSSED_SEMI, 0)
  {
    CrossedChoice();
    assert From(CROSSED, [0, 1, 3, 4], 0, 4) && 2 !in [0, 1, 3, 4];
    CrossedRanked();
  }

  lemma CrossedChoice()
    ensures Tables(CROSSED_TREE, CROSSED_SEMI) && Missed(CROSSED_TREE, CROSSED_SEMI, 4) && Settled(CROSSED_TREE, CROSSED_SEMI, 4) == 2
  {
    var t, sd := CROSSED_TREE, CROSSED_SEMI;
    assert Best(t, sd, 3, 2) == 3;
    assert Best(t, sd, 4, 2) == 3;
  }

  lemma CrossedRanked()
    ensures Ranked(CROSSED, CROSSED_TREE, CROSSED_SEMI, 0)
  {
    hide DepthFirst, IsSemi;
    CrossedSearched();
    forall v: nat | 0 < v < 5 ensures IsSemi(CROSSED, CROSSED_TREE, v, CROSSED_SEMI[v]) { CrossedSemi(v); }
    assert forall v: nat :: v < 5 && CROSSED_TREE.num[v] > 0 ==> 0 < v && CROSSED_SEMI[v] < CROSSED_TREE.num[v];
  }

  lemma CrossedSemi(v: nat)
    requires 0 < v < 5
    ensures IsSemi(CROSSED, CROSSED_TREE, v, CROSSED_SEMI[v])
  {
    var g, t := CROSSED, CROSSED_TREE;
    var e := EdgePath(g, t, CROSSED_SEMI[v], v);
    assert |e| > 0 && SemiPath(g, t, e[0], v, e);
    forall p | |p| > 0 && SemiPath(g, t, p[0], v, p) ensures CROSSED_SEMI[v] <= t.num[p[0]] {
      var x := p[|p| - 2];
      assert v in g[x];
    }
  }

  lemma CrossedSearched()
    ensures DepthFirst(CROSSED, CROSSED_TREE)
  {
    hide Anc;
    var g, t := CROSSED, CROSSED_TREE;
    forall v: nat | v < 5 ensures InTree(t, v) {}
    forall v: nat | 0 < v < 5 ensures Preorder(g, t, v) { SelfAnc(t, v - 1); }
    forall v: nat, w: nat | v < 5 && w in g[v] ensures w < 5 && Anc(t, v, w) { CrossedAnc(v, w); }
  }

  /** The tree is a chain, so that every edge goes down. */
  lemma CrossedAnc(v: nat, w: nat)
    requires v < 5 && w in CROSSED[v]
    ensures w < 5 && Anc(CROSSED_TREE, v, w)
  {
    assert w == v + 1 || w == v + 2;
    ChainStep(v, v + 1);
    if w == v + 2 { ChainStep(v, w); }
  }

  lemma ChainStep(v: nat, w: nat)
    requires v < w < 5 && (w == v + 1 || Anc(CROSSED_TREE, v, w - 1))
    ensures Anc(CROSSED_TREE, v, w)
  {
    assert CROSSED_TREE.parent[w] == w - 1;
    SelfAnc(CROSSED_TREE, v);
  }

  lemma DecidesBelow(g: Graph, t: Tree, sd: seq<nat>, u: nat, v: nat)
    requires |t.num| == |sd| == |g| && v < |g| && Decides(g, t, sd, u, v)
    ensures u < |g| && t.num[u] > sd[v] && sd[u] < sd[v]
  {
  }

  lemma NotIdom(g: Graph, t: Tree, sd: seq<nat>, entry: nat, v: nat, w: nat, u: nat)
    requires Ranked(g, t, sd, entry) && v < |g| && t.num[v] > 0 && Decides(g, t, sd, u, v)
    requires sd[v] < |t.order| && w == At(t, sd[v])
    ensures !IsIdom(g, entry, w, v)
  {
    hide Ranked, Dominates, DepthFirst;
    SemiBypassed(g, t, sd, entry, v, w, u);
  }

  /** Only semidominators of blocks from the semidominator of `v` on matter to the choice. */
  lemma {:induction false} BestSame(t: Tree, sd: seq<nat>, sd': seq<nat>, x: nat, s: nat)
    requires Tables(t, sd) && Tables(t, sd') && x < |sd| && t.num[x] > s
    requires forall a :: 0 <= a < |sd| && t.num[a] > s ==> sd'[a] == sd[a]
    ensures Best(t, sd', x, s) == Best(t, sd, x, s) && t.num[Best(t, sd, x, s)] > s
    decreases t.num[x]
  {
    var p := t.parent[x];
    if 0 <= p < |sd| && s < t.num[p] < t.num[x] { BestSame(t, sd, sd', p, s); }
  }

  lemma ChosenSame(t: Tree, sd: seq<nat>, sd': seq<nat>, v: nat)
    requires Tables(t, sd) && Tables(t, sd') && v < |sd| && t.num[v] > sd[v]
    requires sd[v] < |t.order| && t.order[sd[v]] < |sd| && t.num[t.order[sd[v]]] == sd[v]
    requires forall a :: 0 <= a < |sd| && t.num[a] >= sd[v] ==> sd'[a] == sd[a]
    ensures Chosen(t, sd', v) == Chosen(t, sd, v)
  {
    hide Best;
    BestSame(t, sd, sd', v, sd[v]);
  }
}
