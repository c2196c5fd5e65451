/** The dominator-tree builder: a depth-first numbering, then one pass over the blocks from the last number to the
    first, sharing tables with the disjoint-set forest, and one from the first to the last. */
module DomTree {
  import opened ControlFlow
  import opened DfsTree
  import opened DfsSearch
  import opened SemiDominators
  import opened ImmediateDominators
  import Dsu

  const INVALID_ID := 0xffff_ffff_ffff_ffff

  /** The links of the blocks numbered above `i`. */
  ghost predicate LinkedAbove(t: Tree, link: seq<int>, i: int) {
    |link| == |t.num| == |t.parent|
    && forall v :: 0 <= v < |link| ==> link[v] == if t.num[v] > i && t.num[v] > 0 then t.parent[v] else -1
  }

  /** Numbers fall along the path. */
  ghost predicate Descends(t: Tree, p: seq<nat>) {
    (forall i :: 0 <= i < |p| ==> p[i] < |t.num|) && forall i, j :: 0 <= i < j < |p| ==> t.num[p[i]] > t.num[p[j]]
  }

  /** One step up the forest path of a linked block is one step up the tree. */
  lemma ParentLink(g: Graph, t: Tree, link: seq<int>, paths: seq<seq<nat>>, i: nat, x: nat) returns (p: nat)
    requires |t.num| == |g| && DepthFirst(g, t) && LinkedAbove(t, link, i) && Dsu.Forest(link, paths)
    requires x < |g| && t.num[x] > i
    ensures p < |g| == |paths| && t.num[p] < t.num[x] && paths[x] == [x] + paths[p] && |paths[p]| > 0
    ensures t.num[p] <= i ==> paths[p] == [p]
    ensures forall a: nat :: Anc(t, a, x) <==> a == x || Anc(t, a, p)
  {
    var b;
    p, b := Before(g, t, x);
    hide DepthFirst;
    assert link[x] == p && (t.num[p] <= i ==> link[p] == -1);
  }

  /** The path to the root, without the root, holds exactly the ancestors numbered above `i`, from below. */
  lemma {:induction false} PathIsChain(g: Graph, t: Tree, link: seq<int>, paths: seq<seq<nat>>, i: nat, x: nat)
    requires |t.num| == |g| && DepthFirst(g, t) && LinkedAbove(t, link, i) && Dsu.Forest(link, paths)
    requires x < |g| && t.num[x] > i
    ensures |paths| == |g| && |paths[x]| > 1
    ensures forall a: nat :: a in paths[x][..|paths[x]| - 1] <==> Anc(t, a, x) && a < |g| && t.num[a] > i
    ensures Descends(t, paths[x][..|paths[x]| - 1])
    decreases t.num[x]
  {
    hide DepthFirst, LinkedAbove, Dsu.Forest, Anc;
    var p := ParentLink(g, t, link, paths, i, x);
    var path := paths[x][..|paths[x]| - 1];
    if t.num[p] <= i {
      assert path == [x];
      forall a: nat | Anc(t, a, p) ensures a < |g| && t.num[a] <= i {
        AncNumber(t, a, p);
      }
    } else {
      PathIsChain(g, t, link, paths, i, p);
      var rest := paths[p][..|paths[p]| - 1];
      assert path == [x] + rest;
      assert forall a: nat :: a in path <==> a == x || a in rest;
      forall k | 0 <= k < |rest| ensures t.num[rest[k]] < t.num[x] {
        assert rest[k] in rest;
        AncNumber(t, rest[k], p);
      }
    }
  }

  /** Find's answer for a predecessor is what that predecessor contributes. */
  lemma AnswerContributes(g: Graph, t: Tree, link: seq<int>, paths: seq<seq<nat>>, sd: seq<nat>, sd0: seq<nat>,
                          w: nat, x: nat, u: nat)
    requires |t.num| == |g| && DepthFirst(g, t) && w < |g| && x < |g| && u < |g|
    requires LinkedAbove(t, link, t.num[w]) && Dsu.Forest(link, paths) && Dsu.IsAnswer(sd, paths, x, u)
    requires |sd| == |sd0| == |g| && sd == sd0[w := sd[w]]
    ensures Contributes(g, t, sd0, w, x, u)
  {
    hide DepthFirst, Anc;
    if t.num[x] <= t.num[w] {
      assert link[x] == -1;
    } else {
      hide Dsu.Forest, LinkedAbove;
      PathIsChain(g, t, link, paths, t.num[w], x);
    }
  }

  /** The block of the semidominator's number is an ancestor. */
  lemma SemiAncestor(g: Graph, t: Tree, v: nat, s: nat)
    requires |t.num| == |g| && DepthFirst(g, t) && v < |g| && t.num[v] > 0 && IsSemi(g, t, v, s)
    ensures s < t.num[v] && s < |t.order| && t.order[s] < |g| && t.num[t.order[s]] == s && Anc(t, t.order[s], v)
  {
    hide DepthFirst, Anc;
    var parent, _ := Before(g, t, v);
    var e := EdgePath(g, t, parent, v);
    assert |e| > 0 && SemiPath(g, t, e[0], v, e);
    var p :| |p| > 0 && SemiPath(g, t, p[0], v, p) && t.num[p[0]] == s;
    PathAbove(g, t, p);
    NumbersBelow(g, t);
    AtNumber(g, t, s);
  }

  lemma AboveIsRanked(g: Graph, t: Tree, sd: seq<nat>, i: int, v: nat)
    requires |t.num| == |g| && DepthFirst(g, t) && v < |g| && t.num[v] > 0 && t.num[v] > i && SemiAbove(g, t, sd, i)
    ensures |sd| == |g| && IsSemi(g, t, v, sd[v]) && sd[v] < t.num[v]
    ensures sd[v] < |t.order| && t.order[sd[v]] < |g| && t.num[t.order[sd[v]]] == sd[v] && Anc(t, t.order[sd[v]], v)
  {
    hide DepthFirst, IsSemi, Anc;
    SemiAncestor(g, t, v, sd[v]);
  }

  /** Find's answer for `v`, once its semidominator is linked, is the block chosen for it. */
  lemma AnswerIsChosen(g: Graph, t: Tree, link: seq<int>, paths: seq<seq<nat>>, sd: seq<nat>, v: nat, r: nat, i: nat)
    requires |t.num| == |sd| == |g| && DepthFirst(g, t) && v < |g| && 0 < i == sd[v] && t.num[v] > i && SemiAbove(g, t, sd, i - 1)
    requires LinkedAbove(t, link, i - 1) && Dsu.Forest(link, paths) && v < |paths| && |paths[v]| > 0 && Dsu.IsAnswer(sd, paths, v, r)
    ensures Tables(t, sd) && r < |g| && sd[r] != sd[v] && r == Chosen(t, sd, v)
  {
    hide DepthFirst, Anc, Dsu.Forest, LinkedAbove, Best, SemiAbove, IsSemi, Dsu.LeastOn, Descends;
    PathIsChain(g, t, link, paths, i - 1, v);
    AboveIsRanked(g, t, sd, i - 1, v);
    BestIs(g, t, sd, v, i);
    var path := paths[v][..|paths[v]| - 1];
    var w, u := t.order[i], Best(t, sd, v, i);
    AboveIsRanked(g, t, sd, i - 1, w);
    assert w in path && u in path;
    FirstOnPath(t, sd, path, r, u);
    FirstOnPath(t, sd, path, r, w);
    if t.num[r] == t.num[w] {
      SameNumber(g, t, r, w);
    } else if t.num[r] == t.num[u] {
      SameNumber(g, t, r, u);
    }
  }

  /** When the semidominator is the entry, the answer has the entry's number too. */
  lemma AnswerAtEntry(g: Graph, t: Tree, link: seq<int>, paths: seq<seq<nat>>, sd: seq<nat>, v: nat, r: nat)
    requires |t.num| == |sd| == |g| && DepthFirst(g, t) && v < |g| && 0 == sd[v] < t.num[v]
    requires LinkedAbove(t, link, 0) && Dsu.Forest(link, paths) && v < |paths| && |paths[v]| > 0 && Dsu.IsAnswer(sd, paths, v, r)
    ensures Tables(t, sd) && sd[v] < |t.order| && t.order[sd[v]] < |g| && r < |g|
    ensures sd[r] == sd[v] && t.order[sd[v]] == Chosen(t, sd, v)
  {
    hide DepthFirst, Anc, Dsu.Forest, LinkedAbove, Best, Dsu.LeastOn, Descends;
    PathIsChain(g, t, link, paths, 0, v);
    var path := paths[v][..|paths[v]| - 1];
    SelfAnc(t, v);
    FirstOnPath(t, sd, path, r, v);
    Parents(g, t);
    NumbersBelow(g, t);
    AtNumber(g, t, 0);
  }

  /** An earlier block on the path has a larger semidominator than the first least one. */
  lemma FirstOnPath(t: Tree, sd: seq<nat>, path: seq<nat>, r: nat, x: nat)
    requires |sd| == |t.num| && Dsu.LeastOn(sd, path, r) && Descends(t, path) && x in path
    ensures r in path && r < |sd| && x < |sd| && sd[r] <= sd[x] && (t.num[x] > t.num[r] ==> sd[x] > sd[r])
  {
    var k :| Dsu.FirstAt(sd, path, r, k);
    var i :| 0 <= i < |path| && path[i] == x;
  }

  /** `r` is the minimum of the own number of `w` and the contributions of the predecessors in `done`. */
  ghost predicate MinimumSoFar(g: Graph, t: Tree, sd: seq<nat>, w: nat, r: nat, done: seq<nat>)
    requires |t.num| == |sd| == |g| && w < |g|
  {
    && (r == t.num[w] ||
        exists x: nat, u: nat :: x < |g| && w in g[x] && Contributes(g, t, sd, w, x, u) && u < |g| && r == sd[u])
    && r <= t.num[w]
    && forall x: nat :: x in done ==> x < |g| && exists u: nat :: u < |g| && Contributes(g, t, sd, w, x, u) && r <= sd[u]
  }

  lemma StartMinimum(g: Graph, t: Tree, sd: seq<nat>, w: nat)
    requires |t.num| == |sd| == |g| && w < |g|
    ensures MinimumSoFar(g, t, sd, w, t.num[w], [])
  {
  }

  lemma MinimumStep(g: Graph, t: Tree, sd: seq<nat>, w: nat, r: nat, done: seq<nat>, x: nat, u: nat)
    requires |t.num| == |sd| == |g| && w < |g| && MinimumSoFar(g, t, sd, w, r, done) && sd[w] == t.num[w]
    requires x < |g| && w in g[x] && u < |g| && Contributes(g, t, sd, w, x, u)
    ensures var c := if u == w then r else sd[u];
      MinimumSoFar(g, t, sd, w, if c < r then c else r, done + [x])
  {
    hide Contributes;
    var c := if u == w then r else sd[u];
    var m := if c < r then c else r;
    forall y: nat | y in done + [x]
      ensures y < |g| && exists v: nat :: v < |g| && Contributes(g, t, sd, w, y, v) && m <= sd[v]
    {
      if y in done {
        var v: nat :| v < |g| && Contributes(g, t, sd, w, y, v) && r <= sd[v];
      } else {
        assert Contributes(g, t, sd, w, y, u) && m <= sd[u];
      }
    }
  }

  /** The finished minimum is the semidominator. */
  lemma BlockDone(g: Graph, preds: Graph, t: Tree, sd: seq<nat>, w: nat, r: nat)
    requires |t.num| == |g| && DepthFirst(g, t) && w < |g| && Mirrors(g, preds) && SemiAbove(g, t, sd, t.num[w])
    requires MinimumSoFar(g, t, sd, w, r, preds[w])
    ensures if t.num[w] > 0 then IsSemi(g, t, w, r) && r < t.num[w] else r == 0
  {
    if t.num[w] > 0 {
      assert MinimumOf(g, t, sd, w, r) by { hide Contributes, DepthFirst, SemiAbove; }
      hide MinimumSoFar, MinimumOf, SemiAbove, Contributes, IsSemi, Mirrors, DepthFirst;
      MinimumIsSemi(g, t, sd, w, r);
      BelowOwn(g, t, sd, w, r);
    }
  }

  /** Entering it makes the table right one block further down. */
  lemma TableStep(g: Graph, t: Tree, sd: seq<nat>, w: nat, r: nat)
    requires |t.num| == |g| && DepthFirst(g, t) && w < |g| && SemiAbove(g, t, sd, t.num[w])
    requires if t.num[w] > 0 then IsSemi(g, t, w, r) && r < t.num[w] else r == 0
    ensures SemiAbove(g, t, sd[w := r], t.num[w] as int - 1)
  {
    hide DepthFirst, IsSemi;
    forall v: nat | v < |g| && t.num[v] == t.num[w] ensures v == w { SameNumber(g, t, v, w); }
  }

  lemma Unlinked(t: Tree, link: seq<int>, w: nat)
    requires w < |t.num| && LinkedAbove(t, link, t.num[w])
    ensures w < |link| == |t.num| && link[w] == -1
  {
  }

  lemma OrderInRange(g: Graph, t: Tree)
    requires |t.num| == |g| && DepthFirst(g, t)
    ensures |t.order| == |g| && forall k :: 0 <= k < |g| ==> t.order[k] < |g| && t.num[t.order[k]] == k
  {
  }

  lemma NumbersBelow(g: Graph, t: Tree)
    requires |t.num| == |g| && DepthFirst(g, t)
    ensures forall v :: 0 <= v < |g| ==> t.num[v] < |g|
  {
    hide Preorder, Anc;
    forall v: nat | v < |g| ensures t.num[v] < |g| { assert InTree(t, v); }
  }

  /** Linking `w` to its tree parent is allowed, and is the next entry of the link table. */
  lemma LinkParent(g: Graph, t: Tree, link: seq<int>, paths: seq<seq<nat>>, w: nat)
    requires |t.num| == |g| && DepthFirst(g, t) && w < |g| && t.num[w] > 0
    requires LinkedAbove(t, link, t.num[w]) && Dsu.Forest(link, paths)
    ensures w < |link| == |t.parent| == |paths| && 0 <= t.parent[w] < |link| && link[w] == -1
    ensures |paths[t.parent[w]]| > 0 && Dsu.Root(paths, t.parent[w]) != w
    ensures LinkedAbove(t, link[w := t.parent[w]], t.num[w] as int - 1)
  {
    var p, _ := Before(g, t, w);
    assert link[p] == -1;
    forall v: nat | v < |g| && t.num[v] == t.num[w] ensures v == w { SameNumber(g, t, v, w); }
  }

  /** The entry is never linked. */
  lemma EntryStaysRoot(t: Tree, link: seq<int>)
    requires LinkedAbove(t, link, 0)
    ensures LinkedAbove(t, link, -1)
  {
  }

  ghost predicate Reachable(g: Graph, a: nat, v: nat) {
    exists p :: Path(g, p) && p[0] == a && p[|p| - 1] == v
  }

  lemma EmptyTree(g: Graph, t: Tree, entry: nat)
    requires Growing(g, t) && t.order == [] && entry < |g| && t.parent[entry] == -1
    ensures MayVisit(g, t, entry)
  {
  }

  lemma {:induction false} StaysVisited(g: Graph, t: Tree, p: seq<nat>)
    requires |t.num| == |g| && Path(g, p) && InTree(t, p[0]) && forall v: nat :: InTree(t, v) ==> Finished(g, t, v)
    ensures InTree(t, p[|p| - 1])
  {
    hide InTree, Anc;
    if |p| > 1 {
      SubPath(g, p, 0, |p| - 1);
      StaysVisited(g, t, p[..|p| - 1]);
      assert p[|p| - 1] in g[p[|p| - 2]];
    }
  }

  /** The whole search visited `t`, starting from an empty tree. */
  ghost predicate WholeSearch(g: Graph, t: Tree, entry: nat) {
    && Growing(g, t) && |t.order| > 0 && t.order[0] == entry
    && forall k :: 0 <= k < |t.order| ==> Anc(t, entry, t.order[k]) && Finished(g, t, t.order[k])
  }

  lemma SomeUnreachable(g: Graph, t: Tree, entry: nat)
    requires WholeSearch(g, t, entry) && |t.order| < |g|
    ensures !forall v: nat :: v < |g| ==> Reachable(g, entry, v)
  {
    hide Preorder, Anc, Finished;
    forall v: nat | InTree(t, v) ensures Finished(g, t, v) { assert t.order[t.num[v]] == v; }
    NumberedInTree(t, 0);
    if forall v: nat :: v < |g| ==> InTree(t, v) {
      forall i, j | 0 <= i < j < |t.num| ensures t.num[i] != t.num[j] {
        assert InTree(t, i) && InTree(t, j);
      }
      forall i | 0 <= i < |t.num| ensures t.num[i] < |t.order| { assert InTree(t, i); }
      AtMost(t.num, |t.order|);
    } else {
      var v: nat :| v < |g| && !InTree(t, v);
      if Reachable(g, entry, v) {
        var p :| Path(g, p) && p[0] == entry && p[|p| - 1] == v;
        StaysVisited(g, t, p);
      }
    }
  }

  lemma Connected(g: Graph, t: Tree, entry: nat)
    requires WholeSearch(g, t, entry) && |t.order| >= |g|
    ensures |t.num| == |g| && DepthFirst(g, t) && entry < |g| && t.num[entry] == 0
    ensures forall v: nat :: v < |g| ==> Reachable(g, entry, v) && InTree(t, v)
  {
    hide Preorder, Anc, Finished;
    forall v: nat | InTree(t, v) ensures Finished(g, t, v) { assert t.order[t.num[v]] == v; }
    Completed(g, t);
    NumberedInTree(t, 0);
    forall v: nat | v < |g| ensures Reachable(g, entry, v) && InTree(t, v) {
      assert InTree(t, v) && t.order[t.num[v]] == v;
      var p := TreePath(g, t, entry, v);
    }
  }

  // ----- The buckets and the tentative choices -----

  /** `x` is in the bucket of its semidominator. */
  ghost predicate InBucket(t: Tree, buckets: seq<seq<nat>>, sd: seq<nat>, x: nat)
    requires x < |sd|
  {
    sd[x] < |t.order| && t.order[sd[x]] < |buckets| && x in buckets[t.order[sd[x]]]
  }

  /** A bucket holds only blocks numbered above `i` with the right semidominator. */
  ghost predicate HoldsOnly(t: Tree, bucket: seq<nat>, sd: seq<nat>, n: nat, i: int)
    requires |sd| == |t.num|
  {
    forall x :: x in bucket ==> x < |sd| && t.num[x] > i && t.num[x] > 0 && sd[x] == n
  }

  /** The buckets hold exactly the blocks numbered above `i`, each in that of its semidominator. */
  ghost predicate Registered(t: Tree, buckets: seq<seq<nat>>, sd: seq<nat>, i: int) {
    && |buckets| == |sd| == |t.num|
    && (forall x: nat {:trigger InBucket(t, buckets, sd, x)} :: x < |sd| && t.num[x] > i && t.num[x] > 0 ==> InBucket(t, buckets, sd, x))
    && (forall b :: 0 <= b < |buckets| ==> HoldsOnly(t, buckets[b], sd, t.num[b], i))
  }

  /** The blocks whose semidominator is numbered above `i` have had theirs chosen. */
  ghost predicate Tentative(t: Tree, sd: seq<nat>, idoms: seq<int>, i: int) {
    && Tables(t, sd) && |idoms| == |sd|
    && forall v: nat {:trigger Chosen(t, sd, v)} :: v < |sd| && t.num[v] > 0 && t.num[v] > i && sd[v] > i ==> idoms[v] == Chosen(t, sd, v)
  }

  lemma NothingRegistered(g: Graph, t: Tree, buckets: seq<seq<nat>>, sd: seq<nat>, idoms: seq<int>)
    requires |t.num| == |g| == |buckets| == |sd| == |idoms| && DepthFirst(g, t) && forall b :: 0 <= b < |buckets| ==> buckets[b] == []
    ensures Registered(t, buckets, sd, |g|) && Tentative(t, sd, idoms, |g|)
  {
    NumbersBelow(g, t);
  }

  /** The semidominator of block `i` does not disturb what was chosen for higher blocks. */
  lemma MinimumKeeps(g: Graph, t: Tree, buckets: seq<seq<nat>>, sd: seq<nat>, sd': seq<nat>, idoms: seq<int>, w: nat, i: nat)
    requires |t.num| == |g| && DepthFirst(g, t) && w < |g| && t.num[w] == i && SemiAbove(g, t, sd, i)
    requires Registered(t, buckets, sd, i) && Tentative(t, sd, idoms, i) && |sd'| == |sd| && sd' == sd[w := sd'[w]]
    ensures Registered(t, buckets, sd', i) && Tentative(t, sd', idoms, i)
  {
    hide DepthFirst, Chosen, SemiAbove;
    forall v: nat | v < |sd| && t.num[v] > 0 && t.num[v] > i && sd'[v] > i ensures idoms[v] == Chosen(t, sd', v) {
      assert idoms[v] == Chosen(t, sd, v);
      AboveIsRanked(g, t, sd, i, v);
      ChosenSame(t, sd, sd', v);
    }
    forall x: nat | x < |sd| && t.num[x] > i && t.num[x] > 0 ensures InBucket(t, buckets, sd', x) {
      assert InBucket(t, buckets, sd, x) && x != w;
    }
    forall b | 0 <= b < |buckets| ensures HoldsOnly(t, buckets[b], sd', t.num[b], i) {
      assert HoldsOnly(t, buckets[b], sd, t.num[b], i);
    }
  }

  /** Block `i` goes into the bucket of its semidominator. */
  lemma RegisteredStep(g: Graph, t: Tree, buckets: seq<seq<nat>>, sd: seq<nat>, w: nat, semi: nat)
    requires |t.num| == |g| && DepthFirst(g, t) && w < |g| && t.num[w] > 0 && Registered(t, buckets, sd, t.num[w])
    requires sd[w] < |t.order| && semi == t.order[sd[w]] < |g| && t.num[semi] == sd[w]
    ensures Registered(t, buckets[semi := buckets[semi] + [w]], sd, t.num[w] - 1)
  {
    hide DepthFirst;
    var after := buckets[semi := buckets[semi] + [w]];
    forall x: nat | x < |sd| && t.num[x] > t.num[w] - 1 && t.num[x] > 0 ensures InBucket(t, after, sd, x) {
      if t.num[x] == t.num[w] {
        SameNumber(g, t, x, w);
        assert w in buckets[semi] + [w];
      } else {
        assert InBucket(t, buckets, sd, x);
        MoreIn(buckets[semi], w);
      }
    }
    forall b | 0 <= b < |after| ensures HoldsOnly(t, after[b], sd, t.num[b], t.num[w] - 1) {
      assert HoldsOnly(t, buckets[b], sd, t.num[b], t.num[w]);
    }
  }

  lemma MoreIn(s: seq<nat>, w: nat)
    ensures forall x :: x in s ==> x in s + [w]
  {
  }

  /** Emptying the bucket of block `i` makes the choices complete one block further down. */
  lemma TentativeStep(g: Graph, t: Tree, buckets: seq<seq<nat>>, sd: seq<nat>, idoms: seq<int>, idoms': seq<int>, w: nat, i: nat)
    requires |t.num| == |g| && DepthFirst(g, t) && w < |g| && t.num[w] == i && SemiAbove(g, t, sd, i - 1)
    requires Tentative(t, sd, idoms, i) && Registered(t, buckets, sd, i - 1) && |idoms'| == |idoms|
    requires forall v :: 0 <= v < |idoms| ==> idoms'[v] == if v in buckets[w] then Chosen(t, sd, v) else idoms[v]
    ensures Tentative(t, sd, idoms', i - 1)
  {
    hide DepthFirst, Chosen, SemiAbove;
    forall v: nat | v < |sd| && t.num[v] > 0 && t.num[v] > i - 1 && sd[v] > i - 1 ensures idoms'[v] == Chosen(t, sd, v) {
      AboveIsRanked(g, t, sd, i - 1, v);
      assert InBucket(t, buckets, sd, v);
      if sd[v] == i {
        SameNumber(g, t, t.order[sd[v]], w);
      } else if v in buckets[w] {
      } else {
        assert idoms[v] == Chosen(t, sd, v);
      }
    }
  }

  /** After the last block everything is registered already. */
  lemma RegisteredEnd(t: Tree, buckets: seq<seq<nat>>, sd: seq<nat>)
    requires Registered(t, buckets, sd, 0)
    ensures Registered(t, buckets, sd, -1)
  {
    forall x: nat | x < |sd| && t.num[x] > -1 && t.num[x] > 0 ensures InBucket(t, buckets, sd, x) {}
    forall b | 0 <= b < |buckets| ensures HoldsOnly(t, buckets[b], sd, t.num[b], -1) {
      assert HoldsOnly(t, buckets[b], sd, t.num[b], 0);
    }
  }

  lemma AllChosen(g: Graph, t: Tree, sd: seq<nat>, idoms: seq<int>)
    requires |t.num| == |g| && Tentative(t, sd, idoms, -1)
    ensures Tables(t, sd) && |idoms| == |g| && forall v :: 0 <= v < |g| && t.num[v] > 0 ==> idoms[v] == Chosen(t, sd, v)
  {
    hide Chosen;
    forall v: nat | v < |g| && t.num[v] > 0 ensures idoms[v] == Chosen(t, sd, v) {}
  }

  lemma AllRanked(g: Graph, t: Tree, sd: seq<nat>, entry: nat)
    requires |t.num| == |g| && DepthFirst(g, t) && entry < |g| && t.num[entry] == 0 && SemiAbove(g, t, sd, -1)
    ensures Ranked(g, t, sd, entry)
  {
    hide DepthFirst, IsSemi;
    forall v: nat | v < |g| && t.num[v] > 0 ensures IsSemi(g, t, v, sd[v]) && sd[v] < t.num[v] { AboveIsRanked(g, t, sd, -1, v); }
    RankedIf(g, t, sd, entry);
  }

  lemma RankedIf(g: Graph, t: Tree, sd: seq<nat>, entry: nat)
    requires |t.num| == |g| && DepthFirst(g, t) && entry < |g| && t.num[entry] == 0 && SemiAbove(g, t, sd, -1)
    requires forall v :: 0 <= v < |g| && t.num[v] > 0 ==> IsSemi(g, t, v, sd[v]) && sd[v] < t.num[v]
    ensures Ranked(g, t, sd, entry)
  {
  }

  /** A choice other than the semidominator is a block in between. */
  lemma ChosenBetween(g: Graph, t: Tree, sd: seq<nat>, entry: nat, v: nat)
    requires Ranked(g, t, sd, entry) && v < |g| && t.num[v] > 0
    ensures Tables(t, sd) && sd[v] < |t.order| && t.order[sd[v]] == SemiBlock(t, sd, v)
    ensures var r := Chosen(t, sd, v); r != SemiBlock(t, sd, v) ==> 0 < t.num[r] < t.num[v]
  {
    hide Ranked, Best, NothingPast, Decides, DepthFirst, IsSemi, SemiPath;
    Sizes(g, t, sd, entry);
    BestDecides(g, t, sd, entry, v);
    var w, _ := Semi(g, t, sd, entry, v);
    var u := Best(t, sd, v, sd[v]);
    if sd[u] < sd[v] { DecidesAbove(g, t, sd, entry, u, v); } else { Furthest(g, t, sd, entry, w); }
  }

  lemma Furthest(g: Graph, t: Tree, sd: seq<nat>, entry: nat, w: nat)
    requires Ranked(g, t, sd, entry) && w < |g|
    ensures |sd| == |g| == |t.num| && (t.num[w] > 0 ==> sd[w] < t.num[w])
  {
  }

  class DomTreeBuilder {
    const g: Graph
    const preds: Graph
    const entry: nat
    const idoms: array<int>
    const sdoms: array<nat>
    const sdomsSet: array<seq<nat>>
    const labels: array<int>
    const ordered: array<int>
    const parents: array<int>
    var lastNumber: int
    ghost var order: seq<nat>

    /** Fresh tables for a graph with dense block ids. */
    constructor (g: Graph, preds: Graph, entry: nat)
      requires Mirrors(g, preds) && entry < |g|
      ensures Valid() && fresh(Repr()) && this.g == g && this.preds == preds && this.entry == entry
      ensures order == [] && parents[entry] == -1 && forall v :: 0 <= v < |g| ==> sdomsSet[v] == []
    {
      this.g := g;
      this.preds := preds;
      this.entry := entry;
      idoms := new int[|g|](_ => -1);
      sdoms := new nat[|g|](_ => INVALID_ID);
      sdomsSet := new seq<nat>[|g|](_ => []);
      labels := new int[|g|](_ => -1);
      ordered := new int[|g|](_ => -1);
      parents := new int[|g|](_ => -1);
      lastNumber := -1;
      order := [];
    }

    ghost function Repr(): set<object>
      reads this
    {
      {this, idoms, sdoms, sdomsSet, labels, ordered, parents}
    }

    ghost function TreeSoFar(): Tree
      reads this, sdoms, parents
    {
      Tree(sdoms[..], order, parents[..])
    }

    /** The tables have one entry per block and hold a growing tree; a block is labelled once visited. */
    ghost predicate Valid()
      reads Repr()
    {
      && Mirrors(g, preds) && entry < |g|
      && idoms.Length == sdoms.Length == sdomsSet.Length == labels.Length == ordered.Length == parents.Length == |g|
      && idoms != labels && idoms != ordered && idoms != parents
      && labels != ordered && labels != parents && ordered != parents
      && Growing(g, TreeSoFar())
      && lastNumber == |order| - 1 && |order| <= |g|
      && (forall k :: 0 <= k < |order| ==> ordered[k] == order[k])
      && forall v: nat :: v < |g| ==> labels[v] == if InTree(TreeSoFar(), v) then v else -1
    }

    method Number(b: nat)
      requires Valid() && MayVisit(g, TreeSoFar(), b)
      modifies sdoms, labels, ordered, this`lastNumber, this`order
      ensures Valid() && TreeSoFar() == Visited(old(TreeSoFar()), b)
    {
      hide Growing, MayVisit, Visiting, Mirrors;
      ghost var t0 := TreeSoFar();
      StartVisiting(g, t0, b);
      lastNumber := lastNumber + 1;
      labels[b] := b;
      sdoms[b] := lastNumber;
      ordered[lastNumber] := b;
      order := order + [b];
    }

    method DfsTraverse(b: nat)
      requires Valid() && MayVisit(g, TreeSoFar(), b)
      modifies sdoms, labels, ordered, parents, this`lastNumber, this`order
      ensures Valid() && Extends(old(TreeSoFar()), TreeSoFar())
      ensures |order| > |old(order)| && order[|old(order)|] == b && parents[b] == old(parents[b])
      ensures forall k :: |old(order)| <= k < |order| ==>
        Anc(TreeSoFar(), b, order[k]) && Finished(g, TreeSoFar(), order[k])
      decreases set v: nat | v < |g| && !InTree(TreeSoFar(), v)
    {
      hide Growing, MayVisit, Finished, Anc, Extends, Visiting, InTree;
      ghost var t0 := TreeSoFar();
      StartVisiting(g, t0, b);
      Number(b);
      var i := 0;
      while i < |g[b]|
        invariant 0 <= i <= |g[b]| && Valid() && Visiting(g, t0, TreeSoFar(), b)
        invariant forall j :: 0 <= j < i ==> InTree(TreeSoFar(), g[b][j])
      {
        var succ := g[b][i];
        if labels[succ] == -1 {
          ghost var t := TreeSoFar();
          Descend(g, t0, t, b, succ);
          parents[succ] := b;
          assert TreeSoFar() == t.(parent := t.parent[succ := b]);
          ghost var left := set v: nat | v < |g| && !InTree(TreeSoFar(), v);
          ghost var before := set v: nat | v < |g| && !InTree(t0, v);
          assert left <= before && b in before && b !in left;
          DfsTraverse(succ);
          Return(g, t0, t, TreeSoFar(), b, succ);
        }
        i := i + 1;
      }
      FinishVisiting(g, t0, TreeSoFar(), b);
    }

    /** The finished depth-first tree, now kept apart from the table that semidominators overwrite. */
    ghost predicate Searched(t: Tree)
      reads Repr()
    {
      && Mirrors(g, preds) && |t.num| == |g| && DepthFirst(g, t)
      && idoms.Length == sdoms.Length == sdomsSet.Length == labels.Length == |g|
      && idoms != labels && idoms != ordered && idoms != parents && labels != ordered && labels != parents
      && ordered[..] == t.order && parents[..] == t.parent
      && forall v, x: nat :: 0 <= v < |g| && x in sdomsSet[v] ==> x < |g|
    }

    ghost predicate Linked(dsu: Dsu.DSU, t: Tree, i: int)
      reads Repr(), dsu, dsu.universum, dsu.labels, dsu.sdoms
    {
      && Searched(t) && dsu.labels == labels && dsu.sdoms == sdoms && dsu.Valid()
      && dsu.universum != idoms && dsu.universum != ordered && dsu.universum != parents
      && LinkedAbove(t, dsu.link, i)
    }

    /** One predecessor: the semidominator of `w` so far against that of Find's answer. */
    method Relax(dsu: Dsu.DSU, ghost t: Tree, w: nat, pred: nat, ghost sd: seq<nat>, ghost done: seq<nat>)
      requires w < |g| && pred < |g| && w in g[pred] && |t.num| == |sd| == |g| && Linked(dsu, t, t.num[w])
      requires sdoms[..] == sd[w := sdoms[w]] && sd[w] == t.num[w] && MinimumSoFar(g, t, sd, w, sdoms[w], done)
      modifies sdoms, labels, dsu`jump, dsu.universum
      ensures Linked(dsu, t, t.num[w])
      ensures sdoms[..] == sd[w := sdoms[w]] && MinimumSoFar(g, t, sd, w, sdoms[w], done + [pred])
    {
      hide DepthFirst, MinimumSoFar, Contributes, Mirrors, LinkedAbove, Dsu.Represents, Dsu.Forest, Dsu.IsAnswer, Anc, Dsu.LeastOn;
      Dsu.RepresentsForest(dsu.universum[..], labels[..], sdoms[..], dsu.link, dsu.paths, dsu.jump);
      Unlinked(t, dsu.link, w);
      var u := dsu.Find(pred);
      AnswerContributes(g, t, dsu.link, dsu.paths, sdoms[..], sd, w, pred, u);
      MinimumStep(g, t, sd, w, sdoms[w], done, pred, u);
      if sdoms[u] < sdoms[w] {
        ghost var sd1 := sdoms[..];
        sdoms[w] := sdoms[u];
        Dsu.RootsMayChange(dsu.universum[..], labels[..], sd1, sdoms[..], dsu.link, dsu.paths, dsu.jump);
      }
    }

    /** The minimum over the predecessors of `w`. */
    method MinimizeOverPredecessors(dsu: Dsu.DSU, ghost t: Tree, w: nat)
      requires w < |g| && |t.num| == |g| && Linked(dsu, t, t.num[w]) && SemiAbove(g, t, sdoms[..], t.num[w])
      modifies sdoms, labels, dsu`jump, dsu.universum
      ensures Linked(dsu, t, t.num[w])
      ensures SemiAbove(g, t, sdoms[..], t.num[w] as int - 1) && sdoms[w] <= t.num[w]
      ensures sdoms[..] == old(sdoms[..])[w := sdoms[w]]
    {
      hide DepthFirst, MinimumSoFar, Contributes, LinkedAbove, Dsu.Represents;
      ghost var sd := sdoms[..];
      BelowIsOwn(g, t, sd, t.num[w]);
      StartMinimum(g, t, sd, w);
      hide SemiAbove;
      var k := 0;
      while k < |preds[w]|
        invariant 0 <= k <= |preds[w]| && Linked(dsu, t, t.num[w])
        invariant sdoms[..] == sd[w := sdoms[w]] && MinimumSoFar(g, t, sd, w, sdoms[w], preds[w][..k])
      {
        Relax(dsu, t, w, preds[w][k], sd, preds[w][..k]);
        assert preds[w][..k + 1] == preds[w][..k] + [preds[w][k]];
        k := k + 1;
      }
      assert preds[w][..k] == preds[w];
      BlockDone(g, preds, t, sd, w, sdoms[w]);
      TableStep(g, t, sd, w, sdoms[w]);
    }

    /** Records the block of least semidominator for `w` and hangs `w` below its tree parent. */
    method RegisterAndLink(dsu: Dsu.DSU, ghost t: Tree, w: nat)
      requires w < |g| == |t.num| && t.num[w] > 0 && sdoms.Length == |g| && sdoms[w] <= t.num[w]
      requires Linked(dsu, t, t.num[w]) && Registered(t, sdomsSet[..], sdoms[..], t.num[w])
      modifies sdomsSet, dsu, dsu.universum
      ensures Linked(dsu, t, t.num[w] as int - 1) && Registered(t, sdomsSet[..], sdoms[..], t.num[w] - 1)
    {
      hide DepthFirst, LinkedAbove, Dsu.Represents, Dsu.Forest, Mirrors, Registered;
      assert |parents[..]| == |t.parent| && |ordered[..]| == |t.order|;
      OrderInRange(g, t);
      Dsu.RepresentsForest(dsu.universum[..], labels[..], sdoms[..], dsu.link, dsu.paths, dsu.jump);
      LinkParent(g, t, dsu.link, dsu.paths, w);
      NumbersBelow(g, t);
      var parent := parents[w];
      var semi := ordered[sdoms[w]];
      RegisteredStep(g, t, sdomsSet[..], sdoms[..], w, semi);
      ghost var before := sdomsSet[..];
      sdomsSet[semi] := sdomsSet[semi] + [w];
      assert sdomsSet[..] == before[semi := before[semi] + [w]];
      dsu.Unite(w, parent);
    }

    /** What Find says about one block whose semidominator is `w`. */
    method Choose(dsu: Dsu.DSU, ghost t: Tree, dominatee: nat, ghost i: nat)
      requires |g| == |t.num| && Linked(dsu, t, i as int - 1) && SemiAbove(g, t, sdoms[..], i as int - 1)
      requires dominatee < |g| && t.num[dominatee] > 0 && sdoms[dominatee] == i <= t.num[dominatee]
      modifies idoms, labels, dsu`jump, dsu.universum
      ensures Linked(dsu, t, i as int - 1) && Tables(t, sdoms[..])
      ensures idoms[..] == old(idoms[..])[dominatee := Chosen(t, sdoms[..], dominatee)]
    {
      hide DepthFirst, LinkedAbove, Dsu.Represents, Dsu.Forest, Dsu.IsAnswer, Mirrors, SemiAbove, Chosen, IsSemi;
      ghost var sd := sdoms[..];
      OrderInRange(g, t);
      AboveIsRanked(g, t, sd, i as int - 1, dominatee);
      Dsu.RepresentsForest(dsu.universum[..], labels[..], sdoms[..], dsu.link, dsu.paths, dsu.jump);
      assert |ordered[..]| == |t.order|;
      var minSDom := dsu.Find(dominatee);
      if i > 0 {
        AnswerIsChosen(g, t, dsu.link, dsu.paths, sd, dominatee, minSDom, i);
      } else {
        LinkedAtEntry(t, dsu.link);
        AnswerAtEntry(g, t, dsu.link, dsu.paths, sd, dominatee, minSDom);
      }
      if sdoms[minSDom] == sdoms[dominatee] {
        idoms[dominatee] := ordered[sdoms[dominatee]];
      } else {
        idoms[dominatee] := minSDom;
      }
    }

    /** Chooses a tentative immediate dominator for every block whose semidominator is `w`. */
    method DrainBucket(dsu: Dsu.DSU, ghost t: Tree, w: nat, ghost i: nat)
      requires w < |g| == |t.num| && t.num[w] == i && Linked(dsu, t, i as int - 1) && SemiAbove(g, t, sdoms[..], i as int - 1)
      requires Registered(t, sdomsSet[..], sdoms[..], i as int - 1)
      modifies idoms, labels, dsu`jump, dsu.universum
      ensures Linked(dsu, t, i as int - 1) && Tables(t, sdoms[..])
      ensures forall v: nat :: v < |g| ==> idoms[v] == if v in sdomsSet[w] then Chosen(t, sdoms[..], v) else old(idoms[v])
    {
      hide DepthFirst, LinkedAbove, Dsu.Represents, Mirrors, SemiAbove, Chosen;
      Parents(g, t);
      ghost var was := idoms[..];
      var bucket := sdomsSet[w];
      var k := 0;
      while k < |bucket|
        invariant 0 <= k <= |bucket| && Linked(dsu, t, i as int - 1)
        invariant idoms[..] == ChosenFor(t, sdoms[..], was, bucket[..k])
      {
        assert bucket[k] in bucket && HoldsOnly(t, sdomsSet[..][w], sdoms[..], t.num[w], i as int - 1);
        assert bucket[..k + 1] == bucket[..k] + [bucket[k]];
        Choose(dsu, t, bucket[k], i);
        k := k + 1;
      }
      assert bucket[..k] == bucket;
      assert forall v: nat :: v < |g| ==> idoms[v] == idoms[..][v];
    }

    /** After the pass every block but the entry has its semidominator's number and a tentative choice. */
    method ComputeSDoms(dsu: Dsu.DSU, ghost t: Tree)
      requires |t.num| == |g| && |g| > 0 && Linked(dsu, t, |g|) && sdoms[..] == t.num
      requires forall b :: 0 <= b < |g| ==> sdomsSet[b] == []
      modifies sdoms, labels, idoms, sdomsSet, dsu, dsu.universum
      ensures Linked(dsu, t, -1) && SemiAbove(g, t, sdoms[..], -1) && Tentative(t, sdoms[..], idoms[..], -1)
    {
      hide DepthFirst, Dsu.Represents, Dsu.Forest, Mirrors, IsSemi, Registered, Tentative, Tables, Chosen;
      OrderInRange(g, t);
      NumbersBelow(g, t);
      NothingRegistered(g, t, sdomsSet[..], sdoms[..], idoms[..]);
      var i := |g| - 1;
      AboveAll(g, t, sdomsSet[..], sdoms[..], idoms[..]);
      while i >= 0
        invariant -1 <= i < |g| && Linked(dsu, t, i) && SemiAbove(g, t, sdoms[..], i)
        invariant Registered(t, sdomsSet[..], sdoms[..], if i < 0 then -1 else i) && Tentative(t, sdoms[..], idoms[..], i)
      {
        hide SemiAbove, LinkedAbove;
        OneBlock(dsu, t, i);
        i := i - 1;
      }
    }

    /** One turn of that loop. */
    method OneBlock(dsu: Dsu.DSU, ghost t: Tree, i: nat)
      requires i < |g| == |t.num| && Linked(dsu, t, i) && SemiAbove(g, t, sdoms[..], i)
      requires Registered(t, sdomsSet[..], sdoms[..], i) && Tentative(t, sdoms[..], idoms[..], i)
      modifies sdoms, labels, idoms, sdomsSet, dsu, dsu.universum
      ensures Linked(dsu, t, i as int - 1) && SemiAbove(g, t, sdoms[..], i as int - 1)
      ensures Registered(t, sdomsSet[..], sdoms[..], i as int - 1) && Tentative(t, sdoms[..], idoms[..], i as int - 1)
    {
      hide DepthFirst, Dsu.Represents, Dsu.Forest, Mirrors, IsSemi, Registered, Tentative, Chosen, SemiAbove, LinkedAbove;
      OrderInRange(g, t);
      assert |ordered[..]| == |t.order|;
      var w := ordered[i];
      ghost var sd0 := sdoms[..];
      MinimizeOverPredecessors(dsu, t, w);
      MinimumKeeps(g, t, sdomsSet[..], sd0, sdoms[..], idoms[..], w, i);
      if i > 0 {
        RegisterAndLink(dsu, t, w);
      } else {
        EntryStaysRoot(t, dsu.link);
        RegisteredEnd(t, sdomsSet[..], sdoms[..]);
      }
      ghost var was := idoms[..];
      DrainBucket(dsu, t, w, i);
      TentativeStep(g, t, sdomsSet[..], sdoms[..], was, idoms[..], w, i);
    }

    /** From the first block to the last: a choice other than the semidominator is followed once, to a block that
        is settled. */
    method ComputeIDoms(ghost t: Tree)
      requires Searched(t) && Ranked(g, t, sdoms[..], entry) && Tentative(t, sdoms[..], idoms[..], -1)
      modifies idoms
      ensures Tables(t, sdoms[..]) && forall v :: 0 <= v < |g| && t.num[v] > 0 ==> idoms[v] == Settled(t, sdoms[..], v)
    {
      hide DepthFirst, Ranked, Mirrors, Chosen, Settled, Tentative, SemiBlock;
      OrderInRange(g, t);
      AllChosen(g, t, sdoms[..], idoms[..]);
      ghost var sd := sdoms[..];
      assert |ordered[..]| == |t.order|;
      var i := 1;
      while i < |g|
        invariant 1 <= i
        invariant forall v :: 0 <= v < |g| && t.num[v] > 0 ==> idoms[v] == if t.num[v] < i then Settled(t, sd, v) else Chosen(t, sd, v)
      {
        var w := ordered[i];
        ChosenBetween(g, t, sd, entry, w);
        SettledStep(t, sd, w);
        ghost var before := idoms[..];
        if idoms[w] != ordered[sdoms[w]] {
          idoms[w] := idoms[idoms[w]];
        }
        forall v: nat | v < |g| && t.num[v] > 0 ensures idoms[v] == if t.num[v] < i + 1 then Settled(t, sd, v) else Chosen(t, sd, v) {
          if v != w {
            assert idoms[v] == before[v];
            if t.num[v] == i { SameNumber(g, t, v, w); }
          }
        }
        i := i + 1;
      }
      NumbersBelow(g, t);
    }

    /** The pass as a whole. It succeeds on exactly the connected graphs; then the tables hold a depth-first tree
        from the entry, every other block's semidominator, and a block that is its immediate dominator exactly
        where it is settled right. */
    method Build() returns (connected: bool, ghost t: Tree)
      requires Valid() && order == [] && parents[entry] == -1 && forall v :: 0 <= v < |g| ==> sdomsSet[v] == []
      modifies Repr()
      ensures connected <==> forall v: nat :: v < |g| ==> Reachable(g, entry, v)
      ensures connected ==>
        && sdoms.Length == idoms.Length == |g| == |t.num| && DepthFirst(g, t) && t.num[entry] == 0 && Tables(t, sdoms[..])
        && (forall v :: 0 <= v < |g| && t.num[v] > 0 ==> IsSemi(g, t, v, sdoms[v]))
        && forall v :: 0 <= v < |g| && t.num[v] > 0 ==>
             idoms[v] >= 0 && (IsIdom(g, entry, idoms[v], v) <==> SettledRight(t, sdoms[..], v))
    {
      hide DepthFirst, Finished, Anc, Growing, IsSemi, Dsu.Represents, Reachable, Preorder, IsIdom, Settled, SettledRight,
           Tentative, SemiAbove, LinkedAbove, Mirrors;
      EmptyTree(g, TreeSoFar(), entry);
      DfsTraverse(entry);
      t := TreeSoFar();
      ghost var visited := order;
      if lastNumber != |g| - 1 {
        SomeUnreachable(g, t, entry);
        return false, t;
      }
      Connected(g, t, entry);
      NumbersBelow(g, t);
      var dsu := new Dsu.DSU(labels, sdoms);
      assert ordered[..] == order;
      NothingLinked(t, dsu.link);
      ComputeSDoms(dsu, t);
      AllRanked(g, t, sdoms[..], entry);
      AllSemi(g, t, sdoms[..], entry);
      ComputeIDoms(t);
      ghost var sd := sdoms[..];
      forall v: nat | v < |g| && t.num[v] > 0
        ensures idoms[v] >= 0 && (IsIdom(g, entry, idoms[v], v) <==> SettledRight(t, sd, v))
      {
        SettledIff(g, t, sd, entry, v);
      }
      connected := true;
    }
  }

  lemma AllSemi(g: Graph, t: Tree, sd: seq<nat>, entry: nat)
    requires Ranked(g, t, sd, entry)
    ensures forall v :: 0 <= v < |g| && t.num[v] > 0 ==> IsSemi(g, t, v, sd[v])
  {
    hide IsSemi;
  }

  /** Nothing is linked at first. */
  lemma NothingLinked(t: Tree, link: seq<int>)
    requires |link| == |t.num| == |t.parent| && (forall v :: 0 <= v < |link| ==> link[v] == -1 && t.num[v] < |link|)
    ensures LinkedAbove(t, link, |link|)
  {
  }

  lemma LinkedAtEntry(t: Tree, link: seq<int>)
    requires LinkedAbove(t, link, -1)
    ensures LinkedAbove(t, link, 0)
  {
  }

  /** Nothing is numbered that high. */
  lemma AboveAll(g: Graph, t: Tree, buckets: seq<seq<nat>>, sd: seq<nat>, idoms: seq<int>)
    requires |t.num| == |g| && DepthFirst(g, t) && Registered(t, buckets, sd, |g|) && Tentative(t, sd, idoms, |g|)
    ensures Registered(t, buckets, sd, |g| - 1) && Tentative(t, sd, idoms, |g| - 1)
  {
    hide DepthFirst, Chosen;
    NumbersBelow(g, t);
  }

  /** A table with the blocks of a list chosen. */
  ghost function ChosenFor(t: Tree, sd: seq<nat>, idoms: seq<int>, done: seq<nat>): seq<int>
    requires Tables(t, sd) && |idoms| == |sd|
  {
    seq(|idoms|, v requires 0 <= v < |idoms| => if v in done then Chosen(t, sd, v) else idoms[v])
  }

  lemma SettledStep(t: Tree, sd: seq<nat>, v: nat)
    requires Tables(t, sd) && v < |sd|
    ensures var r := Chosen(t, sd, v);
      Settled(t, sd, v) == if r != SemiBlock(t, sd, v) && t.num[r] < t.num[v] then Settled(t, sd, r) else r
  {
    hide Chosen, SemiBlock;
  }
}
