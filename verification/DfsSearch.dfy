/** Growing a depth-first tree one block at a time. */
module DfsSearch {
  import opened ControlFlow
  import opened DfsTree

  /** The tree so far: well shaped, and every tree edge satisfies the preorder property. */
  ghost predicate Growing(g: Graph, t: Tree) {
    && Numbered(t) && |t.num| == |g|
    && forall v: nat :: InTree(t, v) && t.num[v] > 0 ==> Preorder(g, t, v)
  }

  /** `t'` only adds blocks to `t`. */
  ghost predicate Extends(t: Tree, t': Tree) {
    && |t.num| == |t.parent| == |t'.num| == |t'.parent| && t.order <= t'.order
    && forall v: nat :: InTree(t, v) ==> t'.num[v] == t.num[v] && t'.parent[v] == t.parent[v]
  }

  /** All successors of `v` have been visited, and those with larger numbers are below it. */
  ghost predicate Finished(g: Graph, t: Tree, v: nat) {
    v < |g| && |t.num| == |g| && forall w: nat :: w in g[v] ==> InTree(t, w) && (t.num[w] <= t.num[v] || Anc(t, v, w))
  }

  lemma ExtendsTransitive(t: Tree, t': Tree, t'': Tree)
    requires Extends(t, t') && Extends(t', t'')
    ensures Extends(t, t'')
    ensures forall v: nat :: InTree(t, v) ==> InTree(t', v)
  {
  }

  lemma {:induction false} AncExtends(t: Tree, t': Tree, a: nat, v: nat)
    requires Numbered(t) && Extends(t, t') && InTree(t, v) && Anc(t, a, v)
    ensures Anc(t', a, v)
    decreases t.num[v]
  {
    if a != v { AncExtends(t, t', a, t.parent[v]); }
  }

  lemma FinishedExtends(g: Graph, t: Tree, t': Tree, v: nat)
    requires Numbered(t) && Extends(t, t') && InTree(t, v) && Finished(g, t, v)
    ensures Finished(g, t', v)
  {
    forall w: nat | w in g[v] ensures InTree(t', w) && (t'.num[w] <= t'.num[v] || Anc(t', v, w)) {
      if t.num[w] > t.num[v] { AncExtends(t, t', v, w); }
    }
  }

  /** A block that may be visited next: the entry of an empty tree, or a successor of an ancestor of the
      block visited last. */
  ghost predicate MayVisit(g: Graph, t: Tree, b: nat) {
    && b < |g| && |t.num| == |t.parent| == |g| && !InTree(t, b)
    && if |t.order| == 0 then t.parent[b] == -1
       else var p := t.parent[b];
         0 <= p < |g| && InTree(t, p) && b in g[p] && Anc(t, p, t.order[|t.order| - 1])
  }

  function Visited(t: Tree, b: nat): Tree
    requires b < |t.num|
  {
    Tree(t.num[b := |t.order|], t.order + [b], t.parent)
  }

  lemma VisitShape(g: Graph, t: Tree, b: nat)
    requires Numbered(t) && MayVisit(g, t, b)
    ensures var t' := Visited(t, b);
      && Numbered(t') && Extends(t, t') && InTree(t', b)
      && forall v: nat :: InTree(t', v) <==> v == b || InTree(t, v)
  {
    hide Anc;
    var t' := Visited(t, b);
    forall v: nat ensures InTree(t', v) <==> v == b || InTree(t, v) {
      if InTree(t, v) { assert v != b && t'.num[v] == t.num[v]; }
    }
  }

  /** A tree edge of `t` keeps the preorder property in any extension. */
  lemma PreorderExtends(g: Graph, t: Tree, t': Tree, v: nat)
    requires Numbered(t) && |t.num| == |g| && Extends(t, t') && InTree(t, v) && t.num[v] > 0 && Preorder(g, t, v)
    ensures Preorder(g, t', v)
  {
    hide Anc;
    assert InTree(t, t.order[t.num[v] - 1]);
    AncExtends(t, t', t.parent[v], t.order[t.num[v] - 1]);
  }

  lemma VisitPreorder(g: Graph, t: Tree, b: nat)
    requires Numbered(t) && MayVisit(g, t, b) && |t.order| > 0
    ensures Preorder(g, Visited(t, b), b)
  {
    hide Anc, Numbered, Extends;
    var t' := Visited(t, b);
    VisitShape(g, t, b);
    var last := t.order[|t.order| - 1];
    NumberedInTree(t, |t.order| - 1);
    AncExtends(t, t', t.parent[b], last);
  }

  lemma Visit(g: Graph, t: Tree, b: nat)
    requires Growing(g, t) && MayVisit(g, t, b)
    ensures var t' := Visited(t, b);
      Growing(g, t') && Extends(t, t') && InTree(t', b)
  {
    hide Anc, Preorder;
    var t' := Visited(t, b);
    VisitShape(g, t, b);
    if |t.order| > 0 { VisitPreorder(g, t, b); }
    forall v: nat | InTree(t', v) && t'.num[v] > 0 ensures Preorder(g, t', v) {
      if v != b { PreorderExtends(g, t, t', v); }
    }
  }

  /** Recording a parent for a block that is not in the tree yet. */
  lemma SetParent(g: Graph, t: Tree, b: nat, p: nat)
    requires Growing(g, t) && b < |g| && !InTree(t, b)
    ensures var t' := t.(parent := t.parent[b := p]);
      Growing(g, t') && Extends(t, t') && forall v: nat :: InTree(t', v) <==> InTree(t, v)
  {
    var t' := t.(parent := t.parent[b := p]);
    assert forall v: nat :: InTree(t', v) <==> InTree(t, v);
    forall v: nat | InTree(t', v) && t'.num[v] > 0 ensures Preorder(g, t', v) {
      PreorderExtends(g, t, t', v);
    }
  }

  /** What holds while the successors of `b` are being visited in a tree that was `t0` before `b`. */
  ghost predicate Visiting(g: Graph, t0: Tree, t: Tree, b: nat) {
    && Extends(t0, t) && |t.order| > |t0.order| && t.order[|t0.order|] == b && InTree(t, b)
    && b < |t.parent| == |t0.parent| && t.parent[b] == t0.parent[b]
    && (forall k :: |t0.order| <= k < |t.order| ==> Anc(t, b, t.order[k]))
    && forall k :: |t0.order| < k < |t.order| ==> Finished(g, t, t.order[k])
  }

  /** The tree just after `b` got its number. */
  lemma StartVisiting(g: Graph, t: Tree, b: nat)
    requires Growing(g, t) && MayVisit(g, t, b)
    ensures Growing(g, Visited(t, b)) && Visiting(g, t, Visited(t, b), b)
    ensures forall v: nat :: InTree(Visited(t, b), v) <==> v == b || InTree(t, v)
    ensures b < |g| == |t.num| && !InTree(t, b) && |t.order| < |g|
  {
    Visit(g, t, b);
    VisitShape(g, t, b);
    RoomFor(t, b);
  }

  lemma NumberedInTree(t: Tree, k: nat)
    requires Numbered(t) && k < |t.order|
    ensures InTree(t, t.order[k]) && t.num[t.order[k]] == k
  {
  }

  /** The parts of `Visiting` that the next descent needs. */
  lemma VisitingFacts(g: Graph, t0: Tree, t: Tree, b: nat)
    requires Visiting(g, t0, t, b)
    ensures InTree(t, b) && |t.order| > 0 && Anc(t, b, t.order[|t.order| - 1]) && |t.num| == |t.parent|
    ensures forall v: nat :: InTree(t0, v) ==> InTree(t, v)
  {
    ExtendsTransitive(t0, t, t);
  }

  /** An unvisited successor of `b` may be visited next. */
  lemma Descend(g: Graph, t0: Tree, t: Tree, b: nat, succ: nat)
    requires Growing(g, t) && Visiting(g, t0, t, b) && succ < |g| && b < |g| && succ in g[b] && !InTree(t, succ)
    ensures |t.parent| == |g|
    ensures var t' := t.(parent := t.parent[succ := b]);
      && Growing(g, t') && Extends(t, t') && MayVisit(g, t', succ) && InTree(t', b)
      && (forall v: nat :: InTree(t', v) <==> InTree(t, v))
      && forall v: nat :: InTree(t0, v) ==> InTree(t', v)
  {
    hide Finished, Preorder, Extends, Visiting, Numbered, Anc, InTree;
    VisitingFacts(g, t0, t, b);
    var t' := t.(parent := t.parent[succ := b]);
    SetParent(g, t, succ, b);
    NumberedInTree(t, |t.order| - 1);
    AncExtends(t, t', b, t.order[|t.order| - 1]);
  }

  /** The visit of a successor, its parent recorded, added only finished blocks below it, and so below `b`. */
  lemma Return(g: Graph, t0: Tree, t: Tree, t': Tree, b: nat, succ: nat)
    requires Growing(g, t) && Visiting(g, t0, t, b) && succ < |g| && b < |g| && succ in g[b] && !InTree(t, succ)
    requires |t.parent| == |g| && Growing(g, t') && Extends(t.(parent := t.parent[succ := b]), t')
    requires |t'.order| > |t.order| && t'.order[|t.order|] == succ && t'.parent[succ] == b
    requires forall k :: |t.order| <= k < |t'.order| ==> Anc(t', succ, t'.order[k]) && Finished(g, t', t'.order[k])
    ensures Visiting(g, t0, t', b) && InTree(t', succ) && forall v: nat :: InTree(t, v) ==> InTree(t', v)
  {
    hide Finished, Preorder, MayVisit;
    Descend(g, t0, t, b, succ);
    ExtendsTransitive(t, t.(parent := t.parent[succ := b]), t');
    ExtendsTransitive(t0, t, t');
    NumberedInTree(t', |t.order|);
    ParentIsAncestor(t', succ);
    ExtendedVisit(g, t0, t, t', b, succ);
  }

  lemma ParentIsAncestor(t: Tree, v: nat)
    requires Numbered(t) && InTree(t, v) && t.num[v] > 0
    ensures t.parent[v] >= 0 && Anc(t, t.parent[v], v)
  {
  }

  lemma ExtendedVisit(g: Graph, t0: Tree, t: Tree, t': Tree, b: nat, succ: nat)
    requires Numbered(t) && Visiting(g, t0, t, b) && Extends(t, t') && Extends(t0, t') && b < |g|
    requires |t'.order| > |t.order| && Anc(t', b, succ) && succ < |t'.num|
    requires forall k :: |t.order| <= k < |t'.order| ==>
      t'.order[k] < |t'.num| && Anc(t', succ, t'.order[k]) && Finished(g, t', t'.order[k])
    ensures Visiting(g, t0, t', b)
  {
    forall k | |t0.order| <= k < |t'.order| ensures Anc(t', b, t'.order[k]) {
      if k < |t.order| {
        NumberedInTree(t, k);
        AncExtends(t, t', b, t.order[k]);
      } else {
        AncTransitive(t', b, succ, t'.order[k]);
      }
    }
    forall k | |t0.order| < k < |t'.order| ensures Finished(g, t', t'.order[k]) {
      if k < |t.order| {
        NumberedInTree(t, k);
        FinishedExtends(g, t, t', t.order[k]);
      }
    }
  }

  /** Once all successors of `b` are visited, `b` is finished too. */
  lemma FinishVisiting(g: Graph, t0: Tree, t: Tree, b: nat)
    requires Growing(g, t) && Visiting(g, t0, t, b) && b < |g| && forall w: nat :: w in g[b] ==> InTree(t, w)
    ensures Extends(t0, t) && |t.order| > |t0.order| && t.order[|t0.order|] == b && t.parent[b] == t0.parent[b]
    ensures forall k :: |t0.order| <= k < |t.order| ==> Anc(t, b, t.order[k]) && Finished(g, t, t.order[k])
  {
    assert t.num[b] == |t0.order|;
    forall w: nat | w in g[b] ensures t.num[w] <= t.num[b] || Anc(t, b, w) {
      assert InTree(t, w);
    }
  }

  /** There are no more than `n` different numbers below `n`. */
  lemma {:induction false} AtMost(s: seq<nat>, n: nat)
    requires forall i :: 0 <= i < |s| ==> s[i] < n
    requires forall i, j :: 0 <= i < j < |s| ==> s[i] != s[j]
    ensures |s| <= n
  {
    assert |s| > 0 ==> s[0] < n;
    if n > 0 {
      if k :| 0 <= k < |s| && s[k] == n - 1 {
        AtMost(s[..k] + s[k + 1..], n - 1);
      } else if |s| > 0 {
        AtMost(s, n - 1);
      }
    }
  }

  lemma RoomFor(t: Tree, b: nat)
    requires Numbered(t) && b < |t.num| && !InTree(t, b)
    ensures |t.order| < |t.num|
  {
    var s := t.order + [b];
    forall i, j | 0 <= i < j < |s| ensures s[i] != s[j] {
      assert t.num[t.order[i]] == i;
      if j < |t.order| { assert t.num[t.order[j]] == j; }
    }
    AtMost(s, |t.num|);
  }

  /** Once as many blocks are numbered as there are, and all are finished, the tree is depth-first. */
  lemma Completed(g: Graph, t: Tree)
    requires Growing(g, t) && |t.order| >= |g| && forall v: nat :: InTree(t, v) ==> Finished(g, t, v)
    ensures DepthFirst(g, t)
  {
    forall v: nat | v < |g| ensures InTree(t, v) {
      if !InTree(t, v) { RoomFor(t, v); }
    }
    forall i, j | 0 <= i < j < |t.order| ensures t.order[i] != t.order[j] {
      assert t.num[t.order[i]] == i && t.num[t.order[j]] == j;
    }
    AtMost(t.order, |g|);
  }
}
