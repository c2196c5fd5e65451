/** The disjoint-set forest behind the dominator tree: Find answers with a block of least semidominator
    on the forest path, and compresses that path. */
module Dsu {
  /** The uncompressed forest: the path from every block to its root, as the links alone define it. */
  ghost predicate Forest(link: seq<int>, paths: seq<seq<nat>>) {
    && |paths| == |link|
    && (forall v :: 0 <= v < |paths| ==> |paths[v]| > 0 && paths[v][0] == v)
    && forall v :: 0 <= v < |link| ==>
         && link[v] < |link|
         && paths[v] == if link[v] < 0 then [v] else [v] + paths[link[v]]
  }

  /** The path from any block on a path is the rest of that path. */
  lemma {:induction false} RestOfPath(link: seq<int>, paths: seq<seq<nat>>, v: nat, k: nat)
    requires Forest(link, paths) && v < |link| && k < |paths[v]|
    ensures paths[v][k] < |link| && paths[paths[v][k]] == paths[v][k..]
    decreases k
  {
    if k > 0 {
      var p := link[v];
      assert p >= 0 && paths[v] == [v] + paths[p];
      assert paths[v][k] == paths[p][k - 1];
      RestOfPath(link, paths, p, k - 1);
      assert paths[v][k..] == paths[p][k - 1..];
    }
  }

  /** The root of the tree that `v` is in. */
  ghost function Root(paths: seq<seq<nat>>, v: nat): nat
    requires v < |paths| && |paths[v]| > 0
  {
    paths[v][|paths[v]| - 1]
  }

  /** `r` is the `k`th block of `path`, and those before it have larger semidominators. */
  ghost predicate FirstAt(sd: seq<nat>, path: seq<nat>, r: nat, k: nat)
  {
    && k < |path| && path[k] == r < |sd|
    && forall i :: 0 <= i < k ==> path[i] < |sd| && sd[path[i]] > sd[r]
  }

  /** `r` is the first block on `path` that has the least semidominator there. */
  ghost predicate LeastOn(sd: seq<nat>, path: seq<nat>, r: nat) {
    && (forall x :: x in path ==> x < |sd|)
    && r in path && (exists k :: FirstAt(sd, path, r, k))
    && forall x :: x in path ==> sd[r] <= sd[x]
  }

  /** Find's answer: a root itself, and otherwise the first block of least semidominator on the uncompressed
      path without its root. */
  ghost predicate IsAnswer(sd: seq<nat>, paths: seq<seq<nat>>, v: nat, r: nat)
    requires v < |paths| && |paths[v]| > 0
  {
    if |paths[v]| == 1 then r == v else LeastOn(sd, paths[v][..|paths[v]| - 1], r)
  }

  /** What is stored for `v`: the block `k` steps up its path, and the best block before that. */
  ghost predicate Stored(universum: seq<int>, labels: seq<int>, sd: seq<nat>, path: seq<nat>, v: nat, k: nat)
    requires v < |universum| && v < |labels|
  {
    if |path| == 1 then universum[v] == -1 && labels[v] == v
    else 1 <= k < |path| && universum[v] == path[k] && labels[v] >= 0 && LeastOn(sd, path[..k], labels[v])
  }

  /** The compressed tables represent the forest; `jump` says how far each entry has been compressed. */
  ghost predicate Represents(universum: seq<int>, labels: seq<int>, sd: seq<nat>,
                             link: seq<int>, paths: seq<seq<nat>>, jump: seq<nat>)
  {
    && |universum| == |labels| == |sd| == |link| == |jump|
    && Forest(link, paths)
    && forall v :: 0 <= v < |link| ==> Stored(universum, labels, sd, paths[v], v, jump[v])
  }

  lemma RepresentsForest(universum: seq<int>, labels: seq<int>, sd: seq<nat>,
                         link: seq<int>, paths: seq<seq<nat>>, jump: seq<nat>)
    requires Represents(universum, labels, sd, link, paths, jump)
    ensures Forest(link, paths) && |universum| == |labels| == |sd| == |link| == |jump| == |paths|
    ensures forall v :: 0 <= v < |paths| ==> |paths[v]| > 0
  {
  }

  /** The least of two adjacent stretches of a path. */
  lemma LeastOfTwo(sd: seq<nat>, p: seq<nat>, q: seq<nat>, a: nat, b: nat)
    requires LeastOn(sd, p, a) && LeastOn(sd, q, b)
    ensures LeastOn(sd, p + q, if sd[b] < sd[a] then b else a)
  {
    var i :| FirstAt(sd, p, a, i);
    var j :| FirstAt(sd, q, b, j);
    if sd[b] < sd[a] {
      forall h | 0 <= h < |p| + j ensures (p + q)[h] < |sd| && sd[(p + q)[h]] > sd[b] {
        if h < |p| { assert p[h] in p && (p + q)[h] == p[h]; } else { assert (p + q)[h] == q[h - |p|]; }
      }
      assert FirstAt(sd, p + q, b, |p| + j);
    } else {
      assert FirstAt(sd, p + q, a, i);
    }
  }

  lemma LeastAlone(sd: seq<nat>, v: nat)
    requires v < |sd|
    ensures LeastOn(sd, [v], v)
  {
    assert FirstAt(sd, [v], v, 0);
  }

  /** Only the semidominators on the path matter. */
  lemma LeastSame(sd: seq<nat>, sd': seq<nat>, path: seq<nat>, r: nat)
    requires LeastOn(sd, path, r) && forall x :: x in path ==> x < |sd'| && sd'[x] == sd[x]
    ensures LeastOn(sd', path, r)
  {
    var k :| FirstAt(sd, path, r, k);
    assert FirstAt(sd', path, r, k);
  }

  /** The block a compressed entry points to, and its own path. */
  lemma StoredAncestor(universum: seq<int>, labels: seq<int>, sd: seq<nat>,
                       link: seq<int>, paths: seq<seq<nat>>, jump: seq<nat>, v: nat)
    requires Represents(universum, labels, sd, link, paths, jump) && v < |link| && |paths[v]| > 1
    ensures 0 <= universum[v] < |link| && 1 <= jump[v] < |paths[v]| && paths[universum[v]] == paths[v][jump[v]..]
    ensures v in paths[v] && forall x :: x in paths[universum[v]] ==> x in paths[v]
    ensures v !in paths[universum[v]] && |paths[universum[v]]| > 0
    ensures |universum| == |labels| == |sd| == |link| == |jump| == |paths|
    ensures universum[universum[v]] == -1 <==> |paths[universum[v]]| == 1
  {
    var k := jump[v];
    assert Stored(universum, labels, sd, paths[v], v, k);
    RestOfPath(link, paths, v, k);
    forall i | k <= i < |paths[v]| ensures paths[v][i] != v {
      RestOfPath(link, paths, v, i);
    }
    assert Stored(universum, labels, sd, paths[universum[v]], universum[v], jump[universum[v]]);
  }

  /** Pointing `v` at the root, when the block it points to is already compressed, keeps the tables right. */
  lemma CompressStep(universum: seq<int>, labels: seq<int>, sd: seq<nat>,
                     link: seq<int>, paths: seq<seq<nat>>, jump: seq<nat>, v: nat, anc: nat)
    requires Represents(universum, labels, sd, link, paths, jump) && v < |link| && |paths[v]| > 1
    requires universum[v] == anc < |link| && |paths[anc]| > 1 && jump[anc] == |paths[anc]| - 1
    ensures |universum| == |labels| == |sd| == |jump| && 0 <= labels[v] < |sd| && 0 <= labels[anc] < |sd|
    ensures Represents(universum[v := universum[anc]],
                       labels[v := if sd[labels[anc]] < sd[labels[v]] then labels[anc] else labels[v]],
                       sd, link, paths, jump[v := |paths[v]| - 1])
  {
    var k, path, rest := jump[v], paths[v], paths[anc];
    StoredAncestor(universum, labels, sd, link, paths, jump, v);
    assert Stored(universum, labels, sd, path, v, k);
    assert Stored(universum, labels, sd, rest, anc, jump[anc]);
    LeastOfTwo(sd, path[..k], rest[..|rest| - 1], labels[v], labels[anc]);
    assert path[..|path| - 1] == path[..k] + rest[..|rest| - 1];
    assert rest[|rest| - 1] == path[|path| - 1];
  }

  /** The forest after a link: every path that ended in `target` goes on along the path of `parent`. */
  ghost function Extended(paths: seq<seq<nat>>, target: nat, parent: nat): seq<seq<nat>>
    requires parent < |paths| && forall v :: 0 <= v < |paths| ==> |paths[v]| > 0
  {
    seq(|paths|, v requires 0 <= v < |paths| => if Root(paths, v) == target then paths[v] + paths[parent] else paths[v])
  }

  lemma ForestExtends(link: seq<int>, paths: seq<seq<nat>>, target: nat, parent: nat)
    requires Forest(link, paths) && target < |link| && parent < |link| && link[target] < 0
    requires Root(paths, parent) != target
    ensures Forest(link[target := parent], Extended(paths, target, parent))
  {
    var after, paths' := link[target := parent], Extended(paths, target, parent);
    forall v | 0 <= v < |link|
      ensures paths'[v] == if after[v] < 0 then [v] else [v] + paths'[after[v]]
    {
      if v != target && link[v] >= 0 {
        RootUp(link, paths, v);
        Shift(v, paths[link[v]], paths[parent]);
      }
    }
  }

  lemma RootUp(link: seq<int>, paths: seq<seq<nat>>, v: nat)
    requires Forest(link, paths) && v < |link| && link[v] >= 0
    ensures Root(paths, v) == Root(paths, link[v]) && paths[v] == [v] + paths[link[v]]
  {
  }

  lemma Shift(v: nat, p: seq<nat>, q: seq<nat>)
    ensures ([v] + p) + q == [v] + (p + q)
  {
  }

  lemma UniteStep(universum: seq<int>, labels: seq<int>, sd: seq<nat>,
                  link: seq<int>, paths: seq<seq<nat>>, jump: seq<nat>, target: nat, parent: nat)
    requires Represents(universum, labels, sd, link, paths, jump) && target < |link| && parent < |link|
    requires link[target] < 0 && Root(paths, parent) != target
    ensures Represents(universum[target := parent], labels, sd, link[target := parent],
                       Extended(paths, target, parent), jump[target := 1])
  {
    ForestExtends(link, paths, target, parent);
    var paths' := Extended(paths, target, parent);
    forall v | 0 <= v < |link|
      ensures Stored(universum[target := parent], labels, sd, paths'[v], v, jump[target := 1][v])
    {
      assert Stored(universum, labels, sd, paths[v], v, jump[v]);
      assert link[v] < 0 <==> |paths[v]| == 1;
      if v == target {
        assert paths'[v] == [v] + paths[parent] && paths'[v][..1] == [v];
        LeastAlone(sd, v);
      } else if |paths[v]| > 1 {
        assert paths'[v][..jump[v]] == paths[v][..jump[v]];
      } else {
        assert link[v] < 0 && Root(paths, v) == v;
      }
    }
  }

  /** Semidominators of unlinked blocks may change freely. */
  lemma RootsMayChange(universum: seq<int>, labels: seq<int>, sd: seq<nat>, sd': seq<nat>,
                       link: seq<int>, paths: seq<seq<nat>>, jump: seq<nat>)
    requires Represents(universum, labels, sd, link, paths, jump) && |sd'| == |sd|
    requires forall v :: 0 <= v < |link| && link[v] >= 0 ==> sd'[v] == sd[v]
    ensures Represents(universum, labels, sd', link, paths, jump)
  {
    forall v | 0 <= v < |link| ensures Stored(universum, labels, sd', paths[v], v, jump[v]) {
      assert Stored(universum, labels, sd, paths[v], v, jump[v]);
      if |paths[v]| > 1 {
        var p := paths[v][..jump[v]];
        forall x | x in p ensures x < |sd| && sd'[x] == sd[x] {
          var i :| 0 <= i < jump[v] && paths[v][i] == x;
          RestOfPath(link, paths, v, i);
        }
        LeastSame(sd, sd', p, labels[v]);
      }
    }
  }

  /** Find's answer depends on the links alone, not on what was compressed before. */
  lemma AnswersAgree(sd: seq<nat>, paths: seq<seq<nat>>, v: nat, r: nat, r': nat)
    requires v < |paths| && |paths[v]| > 0 && v < |sd| && IsAnswer(sd, paths, v, r) && IsAnswer(sd, paths, v, r')
    ensures r == r'
  {
    if |paths[v]| > 1 {
      var p := paths[v][..|paths[v]| - 1];
      var k :| FirstAt(sd, p, r, k);
      var k' :| FirstAt(sd, p, r', k');
    }
  }

  class DSU {
    const universum: array<int>
    const labels: array<int>
    const sdoms: array<nat>
    ghost var link: seq<int>
    ghost var paths: seq<seq<nat>>
    ghost var jump: seq<nat>

    ghost predicate Valid()
      reads this, universum, labels, sdoms
    {
      && universum != labels
      && Represents(universum[..], labels[..], sdoms[..], link, paths, jump)
    }

    /** Shares the label and semidominator tables with its client; every block starts as a root. */
    constructor (labels: array<int>, sdoms: array<nat>)
      requires labels.Length == sdoms.Length && forall v :: 0 <= v < labels.Length ==> labels[v] == v
      ensures Valid() && fresh(universum) && this.labels == labels && this.sdoms == sdoms
      ensures link == seq(labels.Length, _ => -1)
    {
      universum := new int[labels.Length](_ => -1);
      this.labels := labels;
      this.sdoms := sdoms;
      link := seq(labels.Length, _ => -1);
      paths := seq(labels.Length, v => [v]);
      jump := seq(labels.Length, _ => 0);
    }

    /** Puts `target`'s tree under `parent`. */
    method Unite(target: nat, parent: nat)
      requires Valid() && target < |link| && parent < |link|
      requires link[target] < 0 && Root(paths, parent) != target
      modifies this, universum
      ensures Valid() && link == old(link)[target := parent]
    {
      UniteStep(universum[..], labels[..], sdoms[..], link, paths, jump, target, parent);
      universum[target] := parent;
      paths := Extended(paths, target, parent);
      jump := jump[target := 1];
      link := link[target := parent];
    }

    method Find(v: nat) returns (r: nat)
      requires Valid() && v < |link|
      modifies this`jump, universum, labels
      ensures Valid() && r < |link| && IsAnswer(sdoms[..], paths, v, r)
    {
      if universum[v] == -1 {
        return v;
      }
      Compress(v);
      r := labels[v];
    }

    method Compress(v: nat)
      requires Valid() && v < |link| && |paths[v]| > 1
      modifies this`jump, universum, labels
      ensures Valid() && jump[v] == |paths[v]| - 1
      ensures forall x :: 0 <= x < |link| && x !in paths[v] ==>
        universum[x] == old(universum[x]) && labels[x] == old(labels[x]) && jump[x] == old(jump[x])
      decreases |paths[v]|
    {
      hide Represents;
      StoredAncestor(universum[..], labels[..], sdoms[..], link, paths, jump, v);
      var anc := universum[v];
      assert |paths[anc]| == |paths[v]| - jump[v];
      if universum[anc] == -1 {
        return;
      }
      Compress(anc);
      CompressStep(universum[..], labels[..], sdoms[..], link, paths, jump, v, anc);
      ghost var l := labels[..];
      var minForBlock, minForAnc := labels[v], labels[anc];
      if sdoms[minForAnc] < sdoms[minForBlock] {
        labels[v] := minForAnc;
      }
      assert labels[..] == l[v := labels[v]];
      universum[v] := universum[anc];
      jump := jump[v := |paths[v]| - 1];
    }
  }
}
