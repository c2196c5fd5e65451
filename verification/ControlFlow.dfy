/** Control-flow graphs: blocks are the ids 0..n-1. */
module ControlFlow {
  /** Successor lists by block id. */
  type Graph = seq<seq<nat>>

  predicate ValidGraph(g: Graph) {
    forall v, k :: 0 <= v < |g| && 0 <= k < |g[v]| ==> g[v][k] < |g|
  }

  ghost predicate Path(g: Graph, p: seq<nat>) {
    && |p| > 0
    && (forall k :: 0 <= k < |p| ==> p[k] < |g|)
    && forall k :: 0 <= k < |p| - 1 ==> p[k + 1] in g[p[k]]
  }

  lemma SubPath(g: Graph, p: seq<nat>, i: nat, j: nat)
    requires Path(g, p) && i < j <= |p|
    ensures Path(g, p[i..j])
  {
    var q := p[i..j];
    assert forall k :: 0 <= k < |q| ==> q[k] == p[i + k];
    forall k | 0 <= k < |q| - 1 ensures q[k + 1] in g[q[k]] {
      assert p[i + k + 1] in g[p[i + k]];
    }
  }

  predicate NoRepeats(s: seq<nat>) { forall i, j :: 0 <= i < j < |s| ==> s[i] != s[j] }

  /** The predecessor lists mirror the successor lists. */
  ghost predicate Mirrors(g: Graph, preds: Graph) {
    |preds| == |g| && ValidGraph(preds) && ValidGraph(g)
    && forall v: nat, w: nat :: v < |g| && w < |g| ==> (w in g[v] <==> v in preds[w])
  }

  ghost predicate From(g: Graph, p: seq<nat>, a: nat, b: nat) { Path(g, p) && p[0] == a && p[|p| - 1] == b }

  /** Every path from the entry to `v` goes through `d`. */
  ghost predicate Dominates(g: Graph, entry: nat, d: nat, v: nat) { forall p :: From(g, p, entry, v) ==> d in p }

  /** A path to a block and one from it. */
  lemma JoinAt(g: Graph, p: seq<nat>, q: seq<nat>)
    requires Path(g, p) && Path(g, q) && p[|p| - 1] == q[0]
    ensures From(g, p + q[1..], p[0], q[|q| - 1]) && forall x :: x in p + q[1..] ==> x in p || x in q
  {
    var r := p + q[1..];
    forall k | 0 <= k < |r| - 1 ensures r[k + 1] in g[r[k]] {
      if k + 1 < |p| {
        assert r[k] == p[k] && r[k + 1] == p[k + 1];
      } else {
        var j := k + 1 - |p|;
        assert r[k + 1] == q[j + 1] && r[k] == q[j];
      }
    }
  }
}
