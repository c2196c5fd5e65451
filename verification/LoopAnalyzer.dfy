/** The loop analysis as it runs: depth-first search for back edges, then every loop is filled from its back
    edges against the edges, then the loops are hung under one another. A loop is named by its header. */
module LoopAnalyzer {
  import opened ControlFlow
  import opened LoopTheory

  datatype LoopRef = NoLoop | Headed(header: nat) | Root

  ghost predicate ValidDominators(g: Graph, dom: seq<seq<bool>>) {
    && |dom| == |g| && (forall a :: 0 <= a < |dom| ==> |dom[a]| == |g|)
    && forall a, b :: 0 <= a < |g| && 0 <= b < |g| ==> (dom[a][b] <==> Dom(g, a, b))
  }

  /** All edges from `x` lead to `black` blocks or to `path`. */
  predicate Closed(g: Graph, black: seq<bool>, path: seq<nat>, x: nat)
    requires x < |g|
  {
    forall k :: 0 <= k < |g[x]| ==> (g[x][k] < |black| && black[g[x][k]]) || g[x][k] in path
  }

  lemma ClosedGrows(g: Graph, black: seq<bool>, path: seq<nat>, black': seq<bool>, path': seq<nat>, x: nat)
    requires x < |g| && Closed(g, black, path, x) && |black'| == |black|
    requires forall y :: 0 <= y < |black| && black[y] ==> black'[y]
    requires forall y :: y in path ==> y in path' || (y < |black'| && black'[y])
    ensures Closed(g, black', path', x)
  {
  }

  /** What is black and closed contains everything reachable from a black block. */
  lemma {:induction false} BlackPath(g: Graph, black: seq<bool>, p: seq<nat>, k: nat)
    requires ValidGraph(g) && |black| == |g| && Path(g, p) && k < |p| && black[p[0]]
    requires forall x :: 0 <= x < |g| && black[x] ==> Closed(g, black, [], x)
    ensures black[p[k]]
  {
    if k > 0 {
      BlackPath(g, black, p, k - 1);
      assert p[k] in g[p[k - 1]];
    }
  }

  // ----- Which loop comes first -----

  /** The first header in the order whose loop contains `b`, other than `b` itself. */
  ghost function Outer(g: Graph, order: seq<nat>, i: nat, b: nat): (r: LoopRef)
    requires i <= |order|
    ensures r != Root
  {
    if i == 0 then NoLoop
    else
      var r := Outer(g, order, i - 1, b);
      var h := order[i - 1];
      if r == NoLoop && IsHeader(g, h) && h != b && InLoop(g, h, b) then Headed(h) else r
  }

  /** The loop of a block when the first `i` blocks of the order have been handled. */
  ghost function LoopAt(g: Graph, order: seq<nat>, i: nat, b: nat): (r: LoopRef)
    requires i <= |order|
    ensures r != Root
  {
    if IsHeader(g, b) then Headed(b) else Outer(g, order, i, b)
  }

  lemma {:induction false} OuterFirst(g: Graph, order: seq<nat>, i: nat, b: nat)
    requires i <= |order|
    ensures Outer(g, order, i, b).Headed? ==>
      var h := Outer(g, order, i, b).header;
      exists j :: 0 <= j < i && order[j] == h && IsHeader(g, h) && h != b && InLoop(g, h, b)
               && forall l :: 0 <= l < j ==> !(IsHeader(g, order[l]) && order[l] != b && InLoop(g, order[l], b))
    ensures Outer(g, order, i, b) == NoLoop ==>
      forall l :: 0 <= l < i ==> !(IsHeader(g, order[l]) && order[l] != b && InLoop(g, order[l], b))
  {
    hide IsHeader, InLoop;
    if i > 0 { OuterFirst(g, order, i - 1, b); }
  }

  /** Everything about the graph that the theory needs. */
  ghost predicate Complete(g: Graph, order: seq<nat>) {
    && AllReachable(g) && DominatorsLater(g, order) && NoRepeats(order) && forall b: nat :: b in order <==> b < |g|
  }

  /** The first loop is the innermost. */
  lemma FirstIsInnermost(g: Graph, order: seq<nat>, b: nat, h: nat)
    requires Complete(g, order) && b < |g| && h < |g|
    requires Outer(g, order, |order|, b).Headed? && IsHeader(g, h) && h != b && InLoop(g, h, b)
    ensures var k := Outer(g, order, |order|, b).header; k < |g| && InLoop(g, k, b) && k != b && Inside(g, k, h)
  {
    hide AllReachable, InLoop, IsHeader, Dom;
    OuterFirst(g, order, |order|, b);
    var k := Outer(g, order, |order|, b).header;
    var j :| 0 <= j < |order| && order[j] == k && IsHeader(g, k) && k != b && InLoop(g, k, b)
      && forall l :: 0 <= l < j ==> !(IsHeader(g, order[l]) && order[l] != b && InLoop(g, order[l], b));
    assert k in order;
    if k != h {
      var l := PositionOf(order, h);
      assert j < l;
      NotEarlier(g, order, l, k, j);
      NestedEither(g, h, k, b);
      LoopInside(g, h, k);
    }
  }

  lemma PositionOf(order: seq<nat>, h: nat) returns (l: nat)
    requires h in order
    ensures l < |order| && order[l] == h
  {
    l :| 0 <= l < |order| && order[l] == h;
  }

  /** A block that comes earlier in the order does not dominate. */
  lemma NotEarlier(g: Graph, order: seq<nat>, l: nat, k: nat, j: nat)
    requires DominatorsLater(g, order) && j < l < |order| && order[j] == k && k != order[l]
    ensures !Dom(g, k, order[l])
  {
    hide Dom;
    assert order[..l][j] == k;
  }

  /** Of two loops with a common block, one header is in the other's loop, unless it dominates. */
  lemma NestedEither(g: Graph, h: nat, k: nat, b: nat)
    requires AllReachable(g) && h < |g| && k < |g| && b < |g| && h != k
    requires InLoop(g, h, b) && InLoop(g, k, b) && !Dom(g, k, h)
    ensures InLoop(g, h, k)
  {
    hide InLoop, Dom;
    HeaderDominates(g, h, b);
    HeaderDominates(g, k, b);
    Comparable(g, h, k, b);
    HeaderNested(g, h, k, b);
  }

  // ----- One loop being filled -----

  /** The loops of blocks after loop `h` has claimed those seen that had none. */
  predicate Claimed(h: nat, seen: seq<bool>, loop0: seq<LoopRef>, loop: seq<LoopRef>) {
    && |seen| == |loop0| == |loop|
    && forall x :: 0 <= x < |loop| ==>
         loop[x] == if seen[x] && x != h && loop0[x] == NoLoop then Headed(h) else loop0[x]
  }

  predicate SeenPart(h: nat, seen: seq<bool>, loop0: seq<LoopRef>, k: nat) {
    |seen| == |loop0| && exists x :: 0 <= x < |seen| && seen[x] && x != h && loop0[x] == Headed(k)
  }

  /** The loops found inside `h` that had no outer loop get `h`. */
  predicate Nested(h: nat, seen: seq<bool>, loop0: seq<LoopRef>, outer0: seq<LoopRef>, outer: seq<LoopRef>) {
    && |outer0| == |outer|
    && forall k :: 0 <= k < |outer| ==>
         outer[k] == if outer0[k] == NoLoop && k != h && SeenPart(h, seen, loop0, k) then Headed(h) else outer0[k]
  }

  /** The lists of a loop are those of the blocks and loops that refer to it. */
  ghost predicate Listed(h: nat, loop: seq<LoopRef>, outer: seq<LoopRef>, blocks: seq<nat>, inner: seq<nat>) {
    && (forall x: nat :: x in blocks <==> x < |loop| && loop[x] == Headed(h))
    && (forall k: nat :: k in inner <==> k < |outer| && outer[k] == Headed(h))
  }

  /** Everything in the loop has been seen. */
  lemma {:induction false} SeenBack(g: Graph, preds: Graph, h: nat, seen: seq<bool>, b: nat, p: seq<nat>, k: nat)
    requires Mirrors(g, preds) && ValidGraph(g) && |seen| == |g| && LoopPath(g, h, b, p) && k < |p| && seen[p[|p| - 1]]
    requires forall x, j :: 0 <= x < |g| && x != h && seen[x] && 0 <= j < |preds[x]| ==> seen[preds[x][j]]
    ensures seen[p[k]]
    decreases |p| - k
  {
    if k < |p| - 1 {
      SeenBack(g, preds, h, seen, b, p, k + 1);
      assert p[k + 1] in g[p[k]];
      assert p[k] in preds[p[k + 1]];
    }
  }

  /** After loop `h` has been handled the tables are those of one more block of the order. */
  lemma StepDone(g: Graph, order: seq<nat>, i: nat, seen: seq<bool>, loop0: seq<LoopRef>, outer0: seq<LoopRef>,
                 loop: seq<LoopRef>, outer: seq<LoopRef>)
    requires Complete(g, order) && i < |order| && IsHeader(g, order[i]) && |loop0| == |outer0| == |g|
    requires forall b :: 0 <= b < |g| ==> loop0[b] == LoopAt(g, order, i, b)
    requires forall b :: 0 <= b < |g| ==> outer0[b] == if IsHeader(g, b) then Outer(g, order, i, b) else NoLoop
    requires Claimed(order[i], seen, loop0, loop) && Nested(order[i], seen, loop0, outer0, outer)
    requires forall x :: 0 <= x < |g| ==> (seen[x] <==> InLoop(g, order[i], x))
    ensures forall b :: 0 <= b < |g| ==> loop[b] == LoopAt(g, order, i + 1, b)
    ensures forall b :: 0 <= b < |g| ==> outer[b] == if IsHeader(g, b) then Outer(g, order, i + 1, b) else NoLoop
  {
    hide IsHeader, InLoop, Complete;
    var h := order[i];
    CompleteFacts(g, order);
    assert h in order;
    forall k | 0 <= k < |g| && k != h ensures SeenPart(h, seen, loop0, k) <==> IsHeader(g, k) && InLoop(g, h, k) {
      if SeenPart(h, seen, loop0, k) {
        var x :| 0 <= x < |seen| && seen[x] && x != h && loop0[x] == Headed(k);
        PartNested(g, order, i, x, k);
      }
      if IsHeader(g, k) && InLoop(g, h, k) {
        assert seen[k] && loop0[k] == Headed(k);
      }
    }
  }

  lemma CompleteFacts(g: Graph, order: seq<nat>)
    requires Complete(g, order)
    ensures AllReachable(g) && DominatorsLater(g, order) && forall b: nat :: b in order <==> b < |g|
  {
  }

  /** A block of loop `h` that already belongs to loop `k` shows that `k` is a loop inside `h`. */
  lemma PartNested(g: Graph, order: seq<nat>, i: nat, x: nat, k: nat)
    requires Complete(g, order) && i < |order| && x < |g| && k < |g| && k != order[i]
    requires InLoop(g, order[i], x) && LoopAt(g, order, i, x) == Headed(k)
    ensures IsHeader(g, k) && InLoop(g, order[i], k)
  {
    hide InLoop, AllReachable, IsHeader;
    var h := order[i];
    assert h in order;
    if !IsHeader(g, x) {
      OuterFirst(g, order, i, x);
      var j :| 0 <= j < i && order[j] == k && IsHeader(g, k) && k != x && InLoop(g, k, x)
        && forall l :: 0 <= l < j ==> !(IsHeader(g, order[l]) && order[l] != x && InLoop(g, order[l], x));
      NotEarlier(g, order, i, k, j);
      NestedEither(g, h, k, x);
    }
  }

  // ----- The search -----

  ghost predicate Input(g: Graph, preds: Graph, dom: seq<seq<bool>>) {
    && |g| > 0 && ValidGraph(g) && Mirrors(g, preds) && ValidDominators(g, dom) && AllReachable(g) && Reducible(g)
    && forall b :: 0 <= b < |g| ==> NoRepeats(g[b])
  }

  lemma InputFacts(g: Graph, preds: Graph, dom: seq<seq<bool>>)
    requires Input(g, preds, dom)
    ensures |g| > 0 && ValidGraph(g) && Mirrors(g, preds) && AllReachable(g) && Reducible(g)
    ensures forall b :: 0 <= b < |g| ==> NoRepeats(g[b])
  {
  }

  lemma EdgeIn(g: Graph, b: nat, k: nat)
    requires ValidGraph(g) && b < |g| && k < |g[b]|
    ensures g[b][k] < |g| && g[b][k] in g[b]
  {
  }

  lemma NewSuccessor(g: Graph, b: nat, k: nat)
    requires b < |g| && k < |g[b]| && NoRepeats(g[b])
    ensures g[b][k] !in g[b][..k]
  {
  }

  /** The path to a block not yet visited. */
  lemma ChildPath(g: Graph, path: seq<nat>, s: nat)
    requires ValidGraph(g) && Path(g, path) && path[0] == 0 && NoRepeats(path) && s < |g| && s in g[path[|path| - 1]] && s !in path
    ensures Path(g, path + [s]) && (path + [s])[0] == 0 && NoRepeats(path + [s])
  {
    var p := path + [s];
    forall k | 0 <= k < |p| - 1 ensures p[k + 1] in g[p[k]] {
      if k + 1 < |path| { assert p[k] == path[k] && p[k + 1] == path[k + 1]; }
    }
  }

  /** A block off the path does not dominate its end. */
  lemma NotBack(g: Graph, path: seq<nat>, s: nat)
    requires |path| > 0 && Path(g, path) && path[0] == 0 && s !in path
    ensures !BackEdge(g, path[|path| - 1], s)
  {
    hide Dom;
    if BackEdge(g, path[|path| - 1], s) {
      assert From(g, path, 0, path[|path| - 1]);
      DomMeans(g, s, path[|path| - 1], path);
    }
  }

  /** All dominators of a block that finishes are still on the path. */
  lemma FinishOrder(g: Graph, order: seq<nat>, path: seq<nat>, b: nat, black: seq<bool>)
    requires OrderOk(g, black, order) && Path(g, path + [b]) && (path + [b])[0] == 0
    requires b < |black| && !black[b] && forall x :: x in path ==> x < |black| && !black[x]
    ensures OrderOk(g, black[b := true], order + [b])
  {
    hide Path, Dom;
    var order' := order + [b];
    forall i, a: nat | 0 <= i < |order'| && Dom(g, a, order'[i]) && a != order'[i] ensures a !in order'[..i] {
      if i == |order| {
        assert From(g, path + [b], 0, b);
        DomMeans(g, a, b, path + [b]);
        assert order'[..i] == order;
      } else {
        assert order'[..i] == order[..i];
      }
    }
  }

  /** All edges from the blocks that became black lead to black blocks or to `path`. */
  predicate NewClosed(g: Graph, black0: seq<bool>, black: seq<bool>, path: seq<nat>) {
    |black0| == |black| == |g| && forall x :: 0 <= x < |g| && black[x] && !black0[x] ==> Closed(g, black, path, x)
  }

  predicate Grows(black0: seq<bool>, black: seq<bool>) {
    |black0| == |black| && forall x :: 0 <= x < |black| && black0[x] ==> black[x]
  }

  lemma NewClosedGrows(g: Graph, black0: seq<bool>, black1: seq<bool>, black: seq<bool>, path1: seq<nat>, path: seq<nat>)
    requires NewClosed(g, black0, black1, path1) && NewClosed(g, black1, black, path) && Grows(black1, black)
    requires forall y :: y in path1 ==> y in path || (y < |black| && black[y])
    ensures NewClosed(g, black0, black, path)
  {
    hide Closed;
    forall x | 0 <= x < |g| && black[x] && !black0[x] ensures Closed(g, black, path, x) {
      if black1[x] { ClosedGrows(g, black1, path1, black, path, x); }
    }
  }

  /** The block finished itself. */
  lemma NewClosedFinish(g: Graph, black0: seq<bool>, black: seq<bool>, path: seq<nat>, b: nat)
    requires NewClosed(g, black0, black, path + [b]) && b < |g| && Closed(g, black, path + [b], b)
    ensures NewClosed(g, black0, black[b := true], path) && Grows(black, black[b := true])
  {
    hide Closed;
    var black' := black[b := true];
    forall x | 0 <= x < |g| && black'[x] && !black0[x] ensures Closed(g, black', path, x) {
      ClosedGrows(g, black, path + [b], black', path, x);
    }
  }

  /** The back edges recorded, and what they say about the loops. */
  ghost predicate EdgesOk(g: Graph, backEdges: seq<seq<nat>>) {
    |backEdges| == |g| && forall h: nat, u: nat {:trigger u in backEdges[h]} :: h < |g| && u in backEdges[h] ==> BackEdge(g, u, h)
  }

  predicate LoopsMade(backEdges: seq<seq<nat>>, loop: seq<LoopRef>, irreducible: seq<bool>, blocks: seq<seq<nat>>) {
    && |loop| == |irreducible| == |blocks| == |backEdges|
    && forall h :: 0 <= h < |backEdges| ==>
         && !irreducible[h]
         && loop[h] == (if backEdges[h] == [] then NoLoop else Headed(h))
         && blocks[h] == (if backEdges[h] == [] then [] else [h])
  }

  ghost predicate OrderOk(g: Graph, black: seq<bool>, order: seq<nat>) {
    && DominatorsLater(g, order) && NoRepeats(order)
    && forall x: nat :: x in order <==> x < |black| && black[x]
  }

  /** All back edges that leave black blocks are recorded. */
  ghost predicate LeavesOk(g: Graph, black: seq<bool>, backEdges: seq<seq<nat>>) {
    && |black| == |backEdges| == |g|
    && forall u: nat, h: nat :: u < |g| && black[u] && h < |g| && BackEdge(g, u, h) ==> u in backEdges[h]
  }

  predicate EdgesGrow(e0: seq<seq<nat>>, e: seq<seq<nat>>) {
    |e0| == |e| && forall h: nat, u: nat {:trigger u in e0[h]} :: h < |e| && u in e0[h] ==> u in e[h]
  }

  /** Recorded edges leave blocks that have been visited. */
  predicate Touched(e: seq<seq<nat>>, grey: seq<bool>, black: seq<bool>) {
    |e| == |grey| == |black| && forall h: nat, u: nat {:trigger u in e[h]} :: h < |e| && u in e[h] ==> u < |e| && (grey[u] || black[u])
  }

  /** No edge that leaves a grey block was added. */
  predicate GreySame(e0: seq<seq<nat>>, e: seq<seq<nat>>, grey: seq<bool>) {
    |e0| == |e| == |grey| && forall h: nat, u: nat {:trigger u in e[h]} :: h < |e| && u in e[h] && u < |e| && grey[u] ==> u in e0[h]
  }

  /** The path is grey, and nothing grey is black. */
  ghost predicate OnPath(path: seq<nat>, grey: seq<bool>, black: seq<bool>) {
    && |grey| == |black| && (forall x: nat :: x in path <==> x < |grey| && grey[x])
    && forall x :: 0 <= x < |grey| && grey[x] ==> !black[x]
  }

  /** The blocks not visited yet. */
  ghost function White(black: seq<bool>, grey: seq<bool>): set<nat> {
    set x | 0 <= x < |black| && x < |grey| && !black[x] && !grey[x]
  }

  lemma WhiteShrinks(black: seq<bool>, grey: seq<bool>, b: nat)
    requires b < |black| == |grey| && !black[b] && !grey[b]
    ensures White(black, grey[b := true]) < White(black, grey)
  {
    assert b in White(black, grey);
  }

  /** What the search keeps from one edge to the next. */
  ghost predicate Kept(g: Graph, path: seq<nat>, grey: seq<bool>, black: seq<bool>, order: seq<nat>, e: seq<seq<nat>>) {
    && EdgesOk(g, e) && OrderOk(g, black, order) && LeavesOk(g, black, e) && Touched(e, grey, black) && OnPath(path, grey, black)
  }

  /** What a search from one block adds. */
  ghost predicate Progress(g: Graph, path: seq<nat>, grey: seq<bool>, black0: seq<bool>, black: seq<bool>,
                           e0: seq<seq<nat>>, e: seq<seq<nat>>) {
    Grows(black0, black) && NewClosed(g, black0, black, path) && EdgesGrow(e0, e) && GreySame(e0, e, grey)
  }

  /** The first `k` successors of `b` have been handled. */
  ghost predicate Scanned(g: Graph, path: seq<nat>, black: seq<bool>, e: seq<seq<nat>>, b: nat, k: nat)
    requires b < |g| && k <= |g[b]|
  {
    && |black| == |e| == |g|
    && (forall j :: 0 <= j < k ==> g[b][j] < |g| && (black[g[b][j]] || g[b][j] in path))
    && (forall j :: 0 <= j < k && BackEdge(g, b, g[b][j]) ==> g[b][j] < |g| && b in e[g[b][j]])
    && (forall h :: 0 <= h < |g| && b in e[h] ==> h in g[b][..k])
  }

  lemma Entered(g: Graph, path: seq<nat>, grey: seq<bool>, black: seq<bool>, order: seq<nat>, e: seq<seq<nat>>, b: nat)
    requires Kept(g, path, grey, black, order, e) && b < |g| && !grey[b] && !black[b]
    ensures Kept(g, path + [b], grey[b := true], black, order, e)
    ensures Progress(g, path + [b], grey, black, black, e, e) && Scanned(g, path + [b], black, e, b, 0)
  {
    hide EdgesOk, OrderOk, LeavesOk, BackEdge;
    KeptFacts(g, path, grey, black, order, e);
    NothingNew(g, black, path + [b]);
    var here := path + [b];
    forall x: nat ensures x in here <==> x in path || x == b { InExtended(path, b, x); }
  }

  lemma InExtended(path: seq<nat>, b: nat, x: nat)
    ensures x in path + [b] <==> x in path || x == b
  {
  }

  /** A back edge to the path is recorded. */
  lemma Recorded(g: Graph, path: seq<nat>, grey: seq<bool>, black0: seq<bool>, black: seq<bool>, order: seq<nat>,
                 e0: seq<seq<nat>>, e: seq<seq<nat>>, b: nat, k: nat)
    requires Kept(g, path, grey, black, order, e) && b < |g| && k < |g[b]| && g[b][k] < |g| && BackEdge(g, b, g[b][k])
    requires grey[b] && g[b][k] in path && Scanned(g, path, black, e, b, k) && Progress(g, path, grey[b := false], black0, black, e0, e)
    ensures var h := g[b][k]; var e' := e[h := e[h] + [b]];
      Kept(g, path, grey, black, order, e') && Scanned(g, path, black, e', b, k + 1)
      && Progress(g, path, grey[b := false], black0, black, e0, e')
  {
    hide OrderOk, NewClosed, BackEdge, EdgesOk, LeavesOk, OnPath, Grows;
    KeptFacts(g, path, grey, black, order, e);
    var h := g[b][k];
    var e' := e[h := e[h] + [b]];
    EdgeAdded(g, e, b, h);
    LeavesStay(g, black, e, e');
    assert g[b][..k + 1] == g[b][..k] + [h];
  }

  lemma KeptFacts(g: Graph, path: seq<nat>, grey: seq<bool>, black: seq<bool>, order: seq<nat>, e: seq<seq<nat>>)
    requires Kept(g, path, grey, black, order, e)
    ensures |e| == |g| == |grey| == |black|
  {
  }

  /** A successor that needs no record: it is black now, and no dominator. */
  lemma Passed(g: Graph, path: seq<nat>, black: seq<bool>, e: seq<seq<nat>>, b: nat, k: nat)
    requires b < |g| && k < |g[b]| && g[b][k] < |g| && Scanned(g, path, black, e, b, k) && black[g[b][k]]
    requires !BackEdge(g, b, g[b][k])
    ensures Scanned(g, path, black, e, b, k + 1)
  {
    hide BackEdge;
    assert g[b][..k + 1] == g[b][..k] + [g[b][k]];
  }

  /** What has been scanned stays scanned during a search further down. */
  lemma ScannedStays(g: Graph, path: seq<nat>, grey: seq<bool>, black: seq<bool>, black': seq<bool>,
                     e: seq<seq<nat>>, e': seq<seq<nat>>, b: nat, k: nat)
    requires b < |g| && k <= |g[b]| && Scanned(g, path, black, e, b, k) && Progress(g, path, grey, black, black', e, e')
    requires |grey| == |g| && grey[b]
    ensures Scanned(g, path, black', e', b, k)
  {
    hide BackEdge, NewClosed;
  }

  lemma ProgressAdds(g: Graph, path: seq<nat>, grey: seq<bool>, grey': seq<bool>, black0: seq<bool>, black1: seq<bool>,
                     black: seq<bool>, e0: seq<seq<nat>>, e1: seq<seq<nat>>, e: seq<seq<nat>>)
    requires Progress(g, path, grey, black0, black1, e0, e1) && Progress(g, path, grey', black1, black, e1, e)
    requires Grows(grey, grey')
    ensures Progress(g, path, grey, black0, black, e0, e)
  {
    hide NewClosed;
    NewClosedGrows(g, black0, black1, black, path, path);
  }

  /** The block is finished. */
  lemma Finished(g: Graph, path: seq<nat>, grey: seq<bool>, black0: seq<bool>, black: seq<bool>, order: seq<nat>,
                 e0: seq<seq<nat>>, e: seq<seq<nat>>, b: nat)
    requires ValidGraph(g) && b < |g| && b !in path && Path(g, path + [b]) && (path + [b])[0] == 0
    requires Kept(g, path + [b], grey, black, order, e) && Scanned(g, path + [b], black, e, b, |g[b]|)
    requires Progress(g, path + [b], grey[b := false], black0, black, e0, e)
    ensures Kept(g, path, grey[b := false], black[b := true], order + [b], e)
    ensures Progress(g, path, grey[b := false], black0, black[b := true], e0, e)
  {
    hide OrderOk, NewClosed, BackEdge, EdgesOk, LeavesOk, Path, Closed;
    KeptFacts(g, path + [b], grey, black, order, e);
    var here := path + [b];
    forall x: nat ensures x in here <==> x in path || x == b { InExtended(path, b, x); }
    assert b in here && grey[b] && !black[b];
    FinishOrder(g, order, path, b, black);
    LeavesFinish(g, black, e, b);
    ClosedHere(g, black, path + [b], b);
    NewClosedFinish(g, black0, black, path, b);
  }

  lemma EdgeAdded(g: Graph, e: seq<seq<nat>>, u: nat, h: nat)
    requires EdgesOk(g, e) && h < |e| && BackEdge(g, u, h)
    ensures var e' := e[h := e[h] + [u]]; EdgesOk(g, e') && EdgesGrow(e, e')
  {
    hide BackEdge;
  }

  lemma LeavesStay(g: Graph, black: seq<bool>, e: seq<seq<nat>>, e': seq<seq<nat>>)
    requires LeavesOk(g, black, e) && EdgesGrow(e, e')
    ensures LeavesOk(g, black, e')
  {
    hide BackEdge;
  }

  lemma LeavesFinish(g: Graph, black: seq<bool>, e: seq<seq<nat>>, b: nat)
    requires LeavesOk(g, black, e) && b < |g| && ValidGraph(g)
    requires forall j :: 0 <= j < |g[b]| && BackEdge(g, b, g[b][j]) ==> g[b][j] < |e| && b in e[g[b][j]]
    ensures LeavesOk(g, black[b := true], e)
  {
    forall h | 0 <= h < |g| && BackEdge(g, b, h) ensures b in e[h] {
      var j :| 0 <= j < |g[b]| && g[b][j] == h;
    }
  }

  lemma DomTable(g: Graph, preds: Graph, dom: seq<seq<bool>>, u: nat, h: nat)
    requires Input(g, preds, dom) && BackEdge(g, u, h)
    ensures u < |g| && h < |g| == |dom| && |dom[h]| == |g| && dom[h][u]
  {
  }

  // ----- Filling and nesting -----

  ghost predicate ListedAll(loop: seq<LoopRef>, outer: seq<LoopRef>, blocks: seq<seq<nat>>, inner: seq<seq<nat>>) {
    && |loop| == |outer| == |blocks| == |inner|
    && forall h :: 0 <= h < |blocks| ==> Listed(h, loop, outer, blocks[h], inner[h])
  }

  /** Loop `h` is being filled: it has claimed and nested what has been seen so far. */
  ghost predicate Filling(h: nat, seen: seq<bool>, loop0: seq<LoopRef>, outer0: seq<LoopRef>,
                          loop: seq<LoopRef>, outer: seq<LoopRef>, blocks: seq<seq<nat>>, inner: seq<seq<nat>>) {
    Claimed(h, seen, loop0, loop) && Nested(h, seen, loop0, outer0, outer) && ListedAll(loop, outer, blocks, inner)
  }

  lemma ClaimBlock(h: nat, seen: seq<bool>, loop0: seq<LoopRef>, outer0: seq<LoopRef>,
                   loop: seq<LoopRef>, outer: seq<LoopRef>, blocks: seq<seq<nat>>, inner: seq<seq<nat>>, b: nat)
    requires Filling(h, seen, loop0, outer0, loop, outer, blocks, inner) && b < |loop| && h < |loop| && b != h && !seen[b]
    requires loop[b] == NoLoop
    ensures b !in blocks[h]
    ensures Filling(h, seen[b := true], loop0, outer0, loop[b := Headed(h)], outer, blocks[h := blocks[h] + [b]], inner)
  {
    hide ListedAll;
    NestedStill(h, seen, loop0, outer0, outer, b);
    ListBlock(h, loop, outer, blocks, inner, b);
  }

  lemma NestedStill(h: nat, seen: seq<bool>, loop0: seq<LoopRef>, outer0: seq<LoopRef>, outer: seq<LoopRef>, b: nat)
    requires Nested(h, seen, loop0, outer0, outer) && b < |seen| == |loop0| && !seen[b]
    requires loop0[b].Headed? ==> loop0[b].header == h || loop0[b].header >= |outer| || outer[loop0[b].header] != NoLoop
    ensures Nested(h, seen[b := true], loop0, outer0, outer)
  {
    var seen' := seen[b := true];
    forall k | 0 <= k < |outer| && SeenPart(h, seen', loop0, k) && loop0[b] != Headed(k)
      ensures SeenPart(h, seen, loop0, k)
    {
      var x :| 0 <= x < |seen| && seen'[x] && x != h && loop0[x] == Headed(k);
      assert seen[x];
    }
    forall k | 0 <= k < |outer| && SeenPart(h, seen, loop0, k) ensures SeenPart(h, seen', loop0, k) {
      var x :| 0 <= x < |seen| && seen[x] && x != h && loop0[x] == Headed(k);
      assert seen'[x];
    }
  }

  lemma ListBlock(h: nat, loop: seq<LoopRef>, outer: seq<LoopRef>, blocks: seq<seq<nat>>, inner: seq<seq<nat>>, b: nat)
    requires ListedAll(loop, outer, blocks, inner) && b < |loop| && h < |loop| && loop[b] == NoLoop
    ensures b !in blocks[h] && ListedAll(loop[b := Headed(h)], outer, blocks[h := blocks[h] + [b]], inner)
  {
    var loop', blocks' := loop[b := Headed(h)], blocks[h := blocks[h] + [b]];
    assert Listed(h, loop, outer, blocks[h], inner[h]);
    forall k | 0 <= k < |blocks'| ensures Listed(k, loop', outer, blocks'[k], inner[k]) {
      assert Listed(k, loop, outer, blocks[k], inner[k]);
      forall x: nat ensures x in blocks'[k] <==> x < |loop'| && loop'[x] == Headed(k) {
        if k == h { InExtended(blocks[h], b, x); }
      }
    }
  }

  /** Loop `k`, found inside `h`, has no outer loop yet. */
  lemma NestLoop(h: nat, seen: seq<bool>, loop0: seq<LoopRef>, outer0: seq<LoopRef>,
                 loop: seq<LoopRef>, outer: seq<LoopRef>, blocks: seq<seq<nat>>, inner: seq<seq<nat>>, b: nat, k: nat)
    requires Filling(h, seen, loop0, outer0, loop, outer, blocks, inner) && b < |loop| && h < |loop| && b != h && !seen[b]
    requires loop[b] == Headed(k) && k != h && k < |outer| && outer[k] == NoLoop
    ensures k !in inner[h]
    ensures Filling(h, seen[b := true], loop0, outer0, loop, outer[k := Headed(h)], blocks, inner[h := inner[h] + [k]])
  {
    hide ListedAll;
    ListInner(h, loop, outer, blocks, inner, k);
    var seen', outer' := seen[b := true], outer[k := Headed(h)];
    assert SeenPart(h, seen', loop0, k) by { assert seen'[b] && loop0[b] == Headed(k); }
    forall l | 0 <= l < |outer| && l != k ensures SeenPart(h, seen', loop0, l) <==> SeenPart(h, seen, loop0, l) {
      PartOther(h, seen, loop0, b, k, l);
    }
  }

  lemma PartOther(h: nat, seen: seq<bool>, loop0: seq<LoopRef>, b: nat, k: nat, l: nat)
    requires |seen| == |loop0| && b < |seen| && !seen[b] && loop0[b] == Headed(k) && k != l
    ensures SeenPart(h, seen[b := true], loop0, l) <==> SeenPart(h, seen, loop0, l)
  {
    var seen' := seen[b := true];
    if SeenPart(h, seen', loop0, l) {
      var x :| 0 <= x < |seen| && seen'[x] && x != h && loop0[x] == Headed(l);
      assert seen[x];
    }
    if SeenPart(h, seen, loop0, l) {
      var x :| 0 <= x < |seen| && seen[x] && x != h && loop0[x] == Headed(l);
      assert seen'[x];
    }
  }

  lemma ListInner(h: nat, loop: seq<LoopRef>, outer: seq<LoopRef>, blocks: seq<seq<nat>>, inner: seq<seq<nat>>, k: nat)
    requires ListedAll(loop, outer, blocks, inner) && k < |outer| && h < |loop| && outer[k] == NoLoop
    ensures k !in inner[h] && ListedAll(loop, outer[k := Headed(h)], blocks, inner[h := inner[h] + [k]])
  {
    var outer', inner' := outer[k := Headed(h)], inner[h := inner[h] + [k]];
    assert Listed(h, loop, outer, blocks[h], inner[h]);
    forall l | 0 <= l < |blocks| ensures Listed(l, loop, outer', blocks[l], inner'[l]) {
      assert Listed(l, loop, outer, blocks[l], inner[l]);
      forall x: nat ensures x in inner'[l] <==> x < |outer'| && outer'[x] == Headed(l) {
        if l == h { InExtended(inner[h], k, x); }
      }
    }
  }

  /** A block that changes nothing has been seen. */
  lemma SeenOnly(h: nat, seen: seq<bool>, loop0: seq<LoopRef>, outer0: seq<LoopRef>,
                 loop: seq<LoopRef>, outer: seq<LoopRef>, blocks: seq<seq<nat>>, inner: seq<seq<nat>>, b: nat)
    requires Filling(h, seen, loop0, outer0, loop, outer, blocks, inner) && b < |loop| && b != h && !seen[b]
    requires loop[b] != NoLoop
    requires loop[b].Headed? ==> loop[b].header == h || loop[b].header >= |outer| || outer[loop[b].header] != NoLoop
    ensures Filling(h, seen[b := true], loop0, outer0, loop, outer, blocks, inner)
  {
    hide ListedAll;
    NestedStill(h, seen, loop0, outer0, outer, b);
  }

  predicate HeadersIn(loop: seq<LoopRef>, n: nat) {
    forall x :: 0 <= x < |loop| && loop[x].Headed? ==> loop[x].header < n
  }

  /** Before anything but the header has been seen. */
  lemma FillingStarts(h: nat, n: nat, loop: seq<LoopRef>, outer: seq<LoopRef>, blocks: seq<seq<nat>>, inner: seq<seq<nat>>)
    requires ListedAll(loop, outer, blocks, inner) && h < |loop| == n
    ensures Filling(h, seq(n, _ => false)[h := true], loop, outer, loop, outer, blocks, inner)
  {
    hide ListedAll;
  }

  /** Predecessors of the blocks seen have been seen. */
  predicate BackClosed(preds: Graph, seen0: seq<bool>, seen: seq<bool>) {
    && |seen0| == |seen| == |preds|
    && forall x, j :: 0 <= x < |seen| && seen[x] && !seen0[x] && 0 <= j < |preds[x]| ==> preds[x][j] < |seen| && seen[preds[x][j]]
  }

  ghost predicate SeenInLoop(g: Graph, h: nat, seen: seq<bool>) {
    forall x :: 0 <= x < |seen| && seen[x] ==> InLoop(g, h, x)
  }

  lemma BackClosedAdds(preds: Graph, seen0: seq<bool>, seen1: seq<bool>, seen: seq<bool>)
    requires BackClosed(preds, seen0, seen1) && BackClosed(preds, seen1, seen) && Grows(seen1, seen)
    ensures BackClosed(preds, seen0, seen)
  {
  }

  predicate PredsSeen(preds: Graph, b: nat, j: nat, seen: seq<bool>) {
    b < |preds| && j <= |preds[b]| && forall l :: 0 <= l < j ==> preds[b][l] < |seen| && seen[preds[b][l]]
  }

  lemma PredsNone(preds: Graph, b: nat, seen: seq<bool>)
    requires b < |preds|
    ensures PredsSeen(preds, b, 0, seen)
  {
  }

  lemma WalkAdds(preds: Graph, seen0: seq<bool>, seen1: seq<bool>, seen: seq<bool>, b: nat, j: nat)
    requires BackClosed(preds, seen0, seen1) && BackClosed(preds, seen1, seen) && Grows(seen0, seen1) && Grows(seen1, seen)
    requires PredsSeen(preds, b, j, seen1) && j < |preds[b]| && preds[b][j] < |seen| && seen[preds[b][j]]
    ensures BackClosed(preds, seen0, seen) && Grows(seen0, seen) && PredsSeen(preds, b, j + 1, seen)
    ensures White(seen, seen) <= White(seen1, seen1)
  {
    hide BackClosed, White;
    BackClosedAdds(preds, seen0, seen1, seen);
    WhiteGrows(seen1, seen);
  }

  lemma BackClosedFinish(preds: Graph, seen0: seq<bool>, seen: seq<bool>, b: nat)
    requires b < |seen0| && BackClosed(preds, seen0[b := true], seen)
    requires PredsSeen(preds, b, |preds[b]|, seen)
    ensures BackClosed(preds, seen0, seen)
  {
  }

  lemma PredIn(g: Graph, preds: Graph, h: nat, b: nat, j: nat)
    requires ValidGraph(g) && Mirrors(g, preds) && b < |g| && b != h && InLoop(g, h, b) && j < |preds[b]|
    ensures preds[b][j] < |g| && InLoop(g, h, preds[b][j])
  {
    hide InLoop;
    assert preds[b][j] in preds[b];
    PredecessorIn(g, h, b, preds[b][j]);
  }

  /** The headers are the blocks with recorded back edges, and those are all back edges. */
  ghost predicate EdgesExact(g: Graph, backEdges: seq<seq<nat>>) {
    |backEdges| == |g| && forall h: nat, u: nat {:trigger u in backEdges[h]} :: h < |g| ==> (u in backEdges[h] <==> BackEdge(g, u, h))
  }

  lemma HeaderHasEdges(g: Graph, backEdges: seq<seq<nat>>, h: nat)
    requires EdgesExact(g, backEdges) && h < |g|
    ensures IsHeader(g, h) <==> backEdges[h] != []
  {
    hide BackEdge;
    if backEdges[h] != [] { assert backEdges[h][0] in backEdges[h]; }
    if IsHeader(g, h) {
      var u :| BackEdge(g, u, h);
      assert u in backEdges[h];
    }
  }

  /** The search from the entry has found everything. */
  lemma SearchComplete(g: Graph, grey: seq<bool>, black0: seq<bool>, black: seq<bool>, order: seq<nat>,
                       e0: seq<seq<nat>>, e: seq<seq<nat>>)
    requires |g| > 0 && AllReachable(g) && Kept(g, [], grey, black, order, e) && Progress(g, [], grey, black0, black, e0, e)
    requires |black| == |g| && black[0] && forall x :: 0 <= x < |black0| ==> !black0[x]
    ensures Complete(g, order) && EdgesExact(g, e)
  {
    hide Path, Dom;
    assert forall x :: 0 <= x < |g| && black[x] ==> Closed(g, black, [], x);
    forall b | 0 <= b < |g| ensures black[b] {
      assert Reachable(g, b);
      var p :| From(g, p, 0, b);
      FromPath(g, p, 0, b);
      BlackPath(g, black, p, |p| - 1);
    }
    forall h: nat, u: nat | h < |g| ensures u in e[h] <==> BackEdge(g, u, h) {
      if BackEdge(g, u, h) { assert black[u]; }
    }
  }

  /** The tables when the first `i` blocks of the order have been handled. */
  ghost predicate TablesAt(g: Graph, order: seq<nat>, i: nat, loop: seq<LoopRef>, outer: seq<LoopRef>) {
    && i <= |order| && |loop| == |outer| == |g|
    && (forall b :: 0 <= b < |g| ==> loop[b] == LoopAt(g, order, i, b))
    && (forall b :: 0 <= b < |g| ==> outer[b] == if IsHeader(g, b) then Outer(g, order, i, b) else NoLoop)
  }

  lemma TablesBegin(g: Graph, order: seq<nat>, backEdges: seq<seq<nat>>, loop: seq<LoopRef>, irreducible: seq<bool>,
                    blocks: seq<seq<nat>>, outer: seq<LoopRef>, inner: seq<seq<nat>>)
    requires EdgesExact(g, backEdges) && LoopsMade(backEdges, loop, irreducible, blocks) && |outer| == |inner| == |g|
    requires forall x :: 0 <= x < |g| ==> outer[x] == NoLoop && inner[x] == []
    ensures TablesAt(g, order, 0, loop, outer) && ListedAll(loop, outer, blocks, inner)
  {
    hide IsHeader, EdgesExact;
    ExactSize(g, backEdges);
    forall b | 0 <= b < |g| ensures IsHeader(g, b) <==> backEdges[b] != [] { HeaderHasEdges(g, backEdges, b); }
  }

  lemma ExactSize(g: Graph, backEdges: seq<seq<nat>>)
    requires EdgesExact(g, backEdges)
    ensures |backEdges| == |g|
  {
  }

  /** A block that heads no loop changes nothing. */
  lemma NoHeader(g: Graph, order: seq<nat>, i: nat, loop: seq<LoopRef>, outer: seq<LoopRef>)
    requires TablesAt(g, order, i, loop, outer) && i < |order| && !IsHeader(g, order[i])
    ensures TablesAt(g, order, i + 1, loop, outer)
  {
    hide IsHeader, InLoop;
  }

  /** A loop is filled when all its back edges have been followed. */
  lemma Filled(g: Graph, preds: Graph, order: seq<nat>, i: nat, backEdges: seq<seq<nat>>, seen0: seq<bool>, seen: seq<bool>,
               loop0: seq<LoopRef>, outer0: seq<LoopRef>, loop: seq<LoopRef>, outer: seq<LoopRef>,
               blocks: seq<seq<nat>>, inner: seq<seq<nat>>)
    requires ValidGraph(g) && Mirrors(g, preds) && Complete(g, order) && EdgesExact(g, backEdges) && i < |order|
    requires TablesAt(g, order, i, loop0, outer0) && order[i] < |g| && IsHeader(g, order[i])
    requires Filling(order[i], seen, loop0, outer0, loop, outer, blocks, inner) && SeenInLoop(g, order[i], seen)
    requires seen0 == seq(|g|, _ => false)[order[i] := true] && BackClosed(preds, seen0, seen) && Grows(seen0, seen)
    requires forall u :: u in backEdges[order[i]] ==> u < |seen| && seen[u]
    ensures TablesAt(g, order, i + 1, loop, outer)
  {
    hide IsHeader, Complete, ListedAll, LoopAt, Outer, Path;
    var h := order[i];
    forall x | 0 <= x < |g| && InLoop(g, h, x) ensures seen[x] {
      if x != h {
        var p :| LoopPath(g, h, x, p);
        LatchSeen(g, h, backEdges, seen, x, p);
        SeenBack(g, preds, h, seen, x, p, 0);
      }
    }
    StepDone(g, order, i, seen, loop0, outer0, loop, outer);
  }

  lemma LatchSeen(g: Graph, h: nat, backEdges: seq<seq<nat>>, seen: seq<bool>, x: nat, p: seq<nat>)
    requires EdgesExact(g, backEdges) && h < |g| && |seen| == |g| && LoopPath(g, h, x, p)
    requires forall u :: u in backEdges[h] ==> u < |seen| && seen[u]
    ensures |p| > 0 && p[|p| - 1] < |seen| && seen[p[|p| - 1]]
  {
    assert p[|p| - 1] in backEdges[h];
  }

  // ----- The result -----

  /** The innermost loop of a block, or of a loop the one around it; the root where there is none. */
  ghost predicate Innermost(g: Graph, b: nat, r: LoopRef, own: bool) {
    match r
    case NoLoop => false
    case Root => forall h: nat :: h < |g| && (own || h != b) ==> !InLoop(g, h, b)
    case Headed(k) =>
      && k < |g| && InLoop(g, k, b) && (own || k != b)
      && forall h: nat :: h < |g| && (own || h != b) && InLoop(g, h, b) ==> Inside(g, k, h)
  }

  function OrRoot(r: LoopRef): LoopRef { if r == NoLoop then Root else r }

  lemma LoopHasHeader(g: Graph, h: nat, b: nat)
    requires InLoop(g, h, b)
    ensures IsHeader(g, h)
  {
    if b != h {
      var p :| LoopPath(g, h, b, p);
    }
  }

  /** The outer loop of a loop is the one immediately around it. */
  lemma OuterIsInnermost(g: Graph, order: seq<nat>, b: nat)
    requires Complete(g, order) && b < |g|
    ensures Innermost(g, b, OrRoot(Outer(g, order, |order|, b)), false)
  {
    hide InLoop, IsHeader, Complete, Inside;
    CompleteFacts(g, order);
    OuterFirst(g, order, |order|, b);
    var r := Outer(g, order, |order|, b);
    forall h: nat | h < |g| && h != b && InLoop(g, h, b)
      ensures r.Headed? && r.header < |g| && Inside(g, r.header, h)
    {
      LoopHasHeader(g, h, b);
      assert h in order;
      var l := PositionOf(order, h);
      FirstIsInnermost(g, order, b, h);
    }
    if r.Headed? { assert r.header in order; }
  }

  /** The loop of a block is the innermost one it is in. */
  lemma LoopIsInnermost(g: Graph, order: seq<nat>, b: nat)
    requires Complete(g, order) && b < |g|
    ensures Innermost(g, b, OrRoot(LoopAt(g, order, |order|, b)), true)
  {
    hide Complete, Inside;
    OuterIsInnermost(g, order, b);
    if IsHeader(g, b) {
      CompleteFacts(g, order);
      forall h: nat | h < |g| && InLoop(g, h, b) ensures Inside(g, b, h) {
        InsideItself(g, b);
        if h != b { LoopInside(g, h, b); }
      }
    } else {
      forall h: nat | h < |g| && InLoop(g, h, b) ensures h != b { LoopHasHeader(g, h, b); }
    }
  }

  lemma InsideItself(g: Graph, b: nat)
    ensures Inside(g, b, b)
  {
  }

  class LoopAnalyzer {
    const g: Graph
    const preds: Graph
    const dom: seq<seq<bool>>
    var grey: seq<bool>
    var black: seq<bool>
    var dfsBlocks: seq<nat>
    /** By block: its loop. By header: the loop's back edges, blocks, outer and inner loops. */
    var loop: seq<LoopRef>
    var backEdges: seq<seq<nat>>
    var irreducible: seq<bool>
    var blocks: seq<seq<nat>>
    var outer: seq<LoopRef>
    var inner: seq<seq<nat>>
    var rootBlocks: seq<nat>
    var rootInner: seq<nat>

    constructor (g: Graph, preds: Graph, dom: seq<seq<bool>>)
      requires Input(g, preds, dom)
      ensures Valid() && this.g == g && FreshTables()
    {
      this.g, this.preds, this.dom := g, preds, dom;
      var n := |g|;
      grey, black, dfsBlocks := seq(n, _ => false), seq(n, _ => false), [];
      loop, outer, irreducible := seq(n, _ => NoLoop), seq(n, _ => NoLoop), seq(n, _ => false);
      backEdges, blocks, inner := seq(n, _ => []), seq(n, _ => []), seq(n, _ => []);
      rootBlocks, rootInner := [], [];
    }

    ghost predicate Valid()
      reads this
    {
      && Input(g, preds, dom)
      && |grey| == |black| == |loop| == |outer| == |irreducible| == |backEdges| == |blocks| == |inner| == |g|
    }

    ghost predicate FreshTables()
      requires Valid()
      reads this
    {
      && dfsBlocks == [] && rootBlocks == [] && rootInner == []
      && forall x :: 0 <= x < |g| ==>
           !grey[x] && !black[x] && !irreducible[x] && loop[x] == outer[x] == NoLoop
           && backEdges[x] == [] && blocks[x] == [] && inner[x] == []
    }

    method AddLoopInfo(header: nat, source: nat)
      requires Valid() && header < |g| && BackEdge(g, source, header) && source !in backEdges[header]
      requires EdgesOk(g, backEdges) && LoopsMade(backEdges, loop, irreducible, blocks)
      modifies this`loop, this`backEdges, this`irreducible, this`blocks
      ensures Valid() && EdgesOk(g, backEdges) && LoopsMade(backEdges, loop, irreducible, blocks)
      ensures backEdges == old(backEdges)[header := old(backEdges)[header] + [source]]
    {
      hide BackEdge, Input, EdgesOk;
      DomTable(g, preds, dom, source, header);
      EdgeAdded(g, backEdges, source, header);
      var bad := !dom[header][source];
      if loop[header] == NoLoop {
        irreducible := irreducible[header := bad];
        blocks := blocks[header := [header]];
        backEdges := backEdges[header := backEdges[header] + [source]];
        loop := loop[header := Headed(header)];
      } else {
        backEdges := backEdges[header := backEdges[header] + [source]];
        irreducible := irreducible[header := irreducible[header] || bad];
      }
    }

    /** Visits everything not yet visited below `b`; `path` is where the search is. */
    method DfsBackEdgesSearch(b: nat, ghost path: seq<nat>)
      requires Valid() && b < |g| && !grey[b] && !black[b] && Kept(g, path, grey, black, dfsBlocks, backEdges)
      requires LoopsMade(backEdges, loop, irreducible, blocks)
      requires Path(g, path + [b]) && (path + [b])[0] == 0 && NoRepeats(path + [b])
      modifies this`grey, this`black, this`dfsBlocks, this`loop, this`backEdges, this`irreducible, this`blocks
      ensures Valid() && black[b] && grey == old(grey) && Kept(g, path, grey, black, dfsBlocks, backEdges)
      ensures LoopsMade(backEdges, loop, irreducible, blocks)
      ensures Progress(g, path, grey, old(black), black, old(backEdges), backEdges)
      decreases White(black, grey)
    {
      hide BackEdge, Path, Input, LoopsMade, Kept, Progress, Scanned, NoRepeats, White, Reducible, AllReachable, Mirrors, ValidGraph,
        EdgesOk;
      InputFacts(g, preds, dom);
      ghost var white := White(black, grey);
      WhiteShrinks(black, grey, b);
      ghost var here := path + [b];
      ghost var grey0, black0, edges0 := grey, black, backEdges;
      assert grey[b := true][b := false] == grey;
      Entered(g, path, grey, black, dfsBlocks, backEdges, b);
      grey := grey[b := true];
      var k := 0;
      while k < |g[b]|
        invariant 0 <= k <= |g[b]| && Valid() && grey == grey0[b := true] && !black[b]
        invariant Kept(g, here, grey, black, dfsBlocks, backEdges) && LoopsMade(backEdges, loop, irreducible, blocks)
        invariant Progress(g, here, grey0, black0, black, edges0, backEdges) && Scanned(g, here, black, backEdges, b, k)
        invariant White(black, grey) < white
      {
        var s := g[b][k];
        EdgeIn(g, b, k);
        ghost var black1, edges1 := black, backEdges;
        if grey[s] {
          BackwardEdge(g, here, grey0, black0, black, dfsBlocks, edges0, backEdges, b, k);
          AddLoopInfo(s, b);
        } else {
          ForwardEdge(g, here, grey, black, dfsBlocks, backEdges, s);
          if !black[s] {
            DfsBackEdgesSearch(s, here);
            ChildDone(g, here, grey0, black0, black1, black, dfsBlocks, edges0, edges1, backEdges, b, k);
          }
          Passed(g, here, black, backEdges, b, k);
        }
        k := k + 1;
      }
      NotOnPath(path, b);
      Finished(g, path, grey, black0, black, dfsBlocks, edges0, backEdges, b);
      grey := grey[b := false];
      black := black[b := true];
      dfsBlocks := dfsBlocks + [b];
      assert grey == grey0;
    }

    /** What the walk does to a block it has not seen: claims it, or nests its outermost loop so far, or neither. */
    method Place(h: nat, b: nat, ghost loop0: seq<LoopRef>, ghost outer0: seq<LoopRef>)
      requires Valid() && h < |g| && b < |g| && black[h] && !black[b]
      requires Filling(h, black, loop0, outer0, loop, outer, blocks, inner)
      requires HeadersIn(loop0, |g|)
      modifies this`loop, this`blocks, this`outer, this`inner
      ensures Valid() && Filling(h, black[b := true], loop0, outer0, loop, outer, blocks, inner)
    {
      hide Input, Filling;
      FillingFacts(h, black, loop0, outer0, loop, outer, blocks, inner, b);
      if loop[b] == NoLoop {
        ClaimBlock(h, black, loop0, outer0, loop, outer, blocks, inner, b);
        blocks := blocks[h := blocks[h] + [b]];
        loop := loop[b := Headed(h)];
      } else if loop[b].Headed? && loop[b].header != h && outer[loop[b].header] == NoLoop {
        NestLoop(h, black, loop0, outer0, loop, outer, blocks, inner, b, loop[b].header);
        inner := inner[h := inner[h] + [loop[b].header]];
        outer := outer[loop[b].header := Headed(h)];
      } else {
        SeenOnly(h, black, loop0, outer0, loop, outer, blocks, inner, b);
      }
    }

    /** Fills loop `h` against the edges from `b` on; what has been seen ends the walk. */
    method DfsPopulateLoops(h: nat, b: nat, ghost loop0: seq<LoopRef>, ghost outer0: seq<LoopRef>)
      requires Valid() && h < |g| && b < |g| && black[h] && InLoop(g, h, b) && SeenInLoop(g, h, black)
      requires Filling(h, black, loop0, outer0, loop, outer, blocks, inner)
      requires HeadersIn(loop0, |g|)
      modifies this`black, this`loop, this`blocks, this`outer, this`inner
      ensures Valid() && black[b] && Grows(old(black), black) && BackClosed(preds, old(black), black) && SeenInLoop(g, h, black)
      ensures Filling(h, black, loop0, outer0, loop, outer, blocks, inner)
      decreases White(black, black)
    {
      hide Input, InLoop, Filling, BackClosed, White, SeenInLoop, HeadersIn, PredsSeen, Mirrors, ValidGraph, Reducible, AllReachable;
      InputFacts(g, preds, dom);
      ClosedNothing(preds, black);
      if black[b] { return; }
      ghost var seen0 := black;
      SeenOne(g, h, black, b);
      WhiteSmaller(black, b);
      Place(h, b, loop0, outer0);
      black := black[b := true];
      ghost var seen1 := black;
      ClosedNothing(preds, black);
      PredsNone(preds, b, black);
      var j := 0;
      while j < |preds[b]|
        invariant 0 <= j <= |preds[b]| && Valid() && Grows(seen1, black) && BackClosed(preds, seen1, black)
        invariant SeenInLoop(g, h, black) && Filling(h, black, loop0, outer0, loop, outer, blocks, inner)
        invariant PredsSeen(preds, b, j, black) && White(black, black) < White(seen0, seen0)
      {
        PredIn(g, preds, h, b, j);
        ghost var before := black;
        DfsPopulateLoops(h, preds[b][j], loop0, outer0);
        WalkAdds(preds, seen1, before, black, b, j);
        j := j + 1;
      }
      BackClosedFinish(preds, seen0, black, b);
    }

    /** Fills one loop from all its back edges, under a marker of its own. */
    method PopulateReducibleLoop(h: nat, ghost i: nat)
      requires Valid() && Complete(g, dfsBlocks) && EdgesExact(g, backEdges) && i < |dfsBlocks| && IsHeader(g, dfsBlocks[i])
      requires dfsBlocks[i] == h && TablesAt(g, dfsBlocks, i, loop, outer) && ListedAll(loop, outer, blocks, inner)
      modifies this`black, this`loop, this`blocks, this`outer, this`inner
      ensures Valid() && TablesAt(g, dfsBlocks, i + 1, loop, outer) && ListedAll(loop, outer, blocks, inner)
    {
      hide Input, InLoop, Filling, BackClosed, SeenInLoop, ListedAll, TablesAt, Complete, EdgesExact, IsHeader, HeadersIn, Mirrors,
        ValidGraph, Reducible, AllReachable;
      InputFacts(g, preds, dom);
      CompleteMember(g, dfsBlocks, i);
      ghost var loop0, outer0 := loop, outer;
      HeadersInTable(g, dfsBlocks, i, loop, outer);
      black := seq(|g|, _ => false);
      black := black[h := true];
      ghost var seen0 := black;
      FillingStarts(h, |g|, loop, outer, blocks, inner);
      HeaderSeen(g, h, black);
      ClosedNothing(preds, black);
      ExactSize(g, backEdges);
      var l := 0;
      while l < |backEdges[h]|
        invariant 0 <= l <= |backEdges[h]| && Valid() && Grows(seen0, black) && BackClosed(preds, seen0, black)
        invariant SeenInLoop(g, h, black) && Filling(h, black, loop0, outer0, loop, outer, blocks, inner)
        invariant forall m :: 0 <= m < l ==> backEdges[h][m] < |g| && black[backEdges[h][m]]
      {
        LatchInLoop(g, backEdges, h, l);
        ghost var before := black;
        DfsPopulateLoops(h, backEdges[h][l], loop0, outer0);
        BackClosedAdds(preds, seen0, before, black);
        l := l + 1;
      }
      Filled(g, preds, dfsBlocks, i, backEdges, seen0, black, loop0, outer0, loop, outer, blocks, inner);
      FillingListed(h, black, loop0, outer0, loop, outer, blocks, inner);
    }

    method PopulateLoops()
      requires Valid() && Complete(g, dfsBlocks) && EdgesExact(g, backEdges)
      requires TablesAt(g, dfsBlocks, 0, loop, outer) && ListedAll(loop, outer, blocks, inner)
      requires forall h :: 0 <= h < |g| ==> !irreducible[h]
      modifies this`black, this`loop, this`blocks, this`outer, this`inner
      ensures Valid() && TablesAt(g, dfsBlocks, |dfsBlocks|, loop, outer) && ListedAll(loop, outer, blocks, inner)
    {
      hide Input, ListedAll, TablesAt, Complete, EdgesExact, IsHeader;
      var i := 0;
      while i < |dfsBlocks|
        invariant 0 <= i <= |dfsBlocks| && Valid() && TablesAt(g, dfsBlocks, i, loop, outer)
        invariant ListedAll(loop, outer, blocks, inner)
      {
        var b := dfsBlocks[i];
        CompleteMember(g, dfsBlocks, i);
        HeadsItself(g, dfsBlocks, i, loop, outer, b);
        if loop[b] == Headed(b) {
          if irreducible[b] {
            assert false;
          } else {
            PopulateReducibleLoop(b, i);
          }
        } else {
          NoHeader(g, dfsBlocks, i, loop, outer);
        }
        i := i + 1;
      }
    }

    /** Blocks in no loop go to the root, and so do loops in no other loop. */
    method BuildLoopTree()
      requires Valid() && Complete(g, dfsBlocks) && TablesAt(g, dfsBlocks, |dfsBlocks|, loop, outer)
      requires rootBlocks == [] && rootInner == []
      modifies this`loop, this`outer, this`rootBlocks, this`rootInner
      ensures Valid() && forall b :: 0 <= b < |g| ==> loop[b] == OrRoot(old(loop)[b])
      ensures forall h :: 0 <= h < |g| ==> outer[h] == if old(loop)[h] == Headed(h) then OrRoot(old(outer)[h]) else NoLoop
      ensures forall b: nat :: b in rootBlocks <==> b < |g| && loop[b] == Root
      ensures forall h: nat :: h in rootInner <==> h < |g| && outer[h] == Root
    {
      hide Input, TablesAt, Complete, IsHeader, Hung, Shaped;
      ghost var loop0, outer0 := loop, outer;
      TableShape(g, dfsBlocks, loop, outer);
      HungNone(loop0, outer0);
      var i := 0;
      while i < |dfsBlocks|
        invariant 0 <= i <= |dfsBlocks| && Valid() && Hung(loop0, outer0, dfsBlocks[..i], loop, outer, rootBlocks, rootInner)
      {
        var b := dfsBlocks[i];
        CompleteMember(g, dfsBlocks, i);
        assert dfsBlocks[..i + 1] == dfsBlocks[..i] + [b];
        HungRange(loop0, outer0, dfsBlocks[..i], loop, outer, rootBlocks, rootInner, b);
        var l := loop[b];
        if l == NoLoop {
          HungBlock(loop0, outer0, dfsBlocks[..i], loop, outer, rootBlocks, rootInner, b);
          rootBlocks := rootBlocks + [b];
          loop := loop[b := Root];
        } else if l.Headed? && outer[l.header] == NoLoop {
          HungLoop(loop0, outer0, dfsBlocks[..i], loop, outer, rootBlocks, rootInner, b);
          outer := outer[l.header := Root];
          rootInner := rootInner + [l.header];
        } else {
          HungAlready(loop0, outer0, dfsBlocks[..i], loop, outer, rootBlocks, rootInner, b);
        }
        i := i + 1;
      }
      assert dfsBlocks[..i] == dfsBlocks;
      HungAll(g, dfsBlocks, loop0, outer0, loop, outer, rootBlocks, rootInner);
    }

    /** The search from the entry lists every block once and finds exactly the back edges. */
    method CollectBackEdges()
      requires Valid() && FreshTables()
      modifies this`grey, this`black, this`dfsBlocks, this`loop, this`backEdges, this`irreducible, this`blocks
      ensures Valid() && Complete(g, dfsBlocks) && EdgesExact(g, backEdges)
      ensures TablesAt(g, dfsBlocks, 0, loop, outer) && ListedAll(loop, outer, blocks, inner)
      ensures forall h :: 0 <= h < |g| ==> !irreducible[h]
    {
      hide Input, Path, Kept, Progress, LoopsMade, TablesAt, ListedAll, Complete, EdgesExact;
      InputFacts(g, preds, dom);
      ghost var black0, edges0 := black, backEdges;
      SearchStarts(g, grey, black, backEdges, loop, irreducible, blocks);
      DfsBackEdgesSearch(0, []);
      SearchComplete(g, grey, black0, black, dfsBlocks, edges0, backEdges);
      NoneIrreducible(backEdges, loop, irreducible, blocks);
      TablesBegin(g, dfsBlocks, backEdges, loop, irreducible, blocks, outer, inner);
    }

    /** The loop tree is right: every block's loop is the innermost natural loop it is in, every loop's outer
        loop is the one immediately around it, the lists agree, and the root holds the rest. */
    method Run()
      requires Valid() && FreshTables()
      modifies this
      ensures Valid() && forall b: nat :: b < |g| ==> Innermost(g, b, loop[b], true)
      ensures forall h: nat :: h < |g| ==> if IsHeader(g, h) then Innermost(g, h, outer[h], false) else outer[h] == NoLoop
      ensures ListedAll(loop, outer, blocks, inner)
      ensures forall b: nat :: b in rootBlocks <==> b < |g| && loop[b] == Root
      ensures forall h: nat :: h in rootInner <==> h < |g| && outer[h] == Root
    {
      hide Input, TablesAt, ListedAll, Complete, EdgesExact, Innermost, IsHeader;
      CollectBackEdges();
      PopulateLoops();
      ghost var loop1, outer1 := loop, outer;
      BuildLoopTree();
      TreeRight(g, dfsBlocks, loop1, outer1, loop, outer);
      TreeListed(g, dfsBlocks, loop1, outer1, loop, outer, blocks, inner);
    }
  }

  /** Hanging what is left under the root makes the loops innermost. */
  lemma TreeRight(g: Graph, order: seq<nat>, loop1: seq<LoopRef>, outer1: seq<LoopRef>, loop: seq<LoopRef>, outer: seq<LoopRef>)
    requires Complete(g, order) && TablesAt(g, order, |order|, loop1, outer1) && |loop1| == |outer1| == |loop| == |outer| == |g|
    requires forall b :: 0 <= b < |g| ==> loop[b] == OrRoot(loop1[b])
    requires forall h :: 0 <= h < |g| ==> outer[h] == if loop1[h] == Headed(h) then OrRoot(outer1[h]) else NoLoop
    ensures forall b: nat :: b < |g| ==> Innermost(g, b, loop[b], true)
    ensures forall h: nat :: h < |g| ==> if IsHeader(g, h) then Innermost(g, h, outer[h], false) else outer[h] == NoLoop
  {
    hide TablesAt, Complete, Innermost, IsHeader, LoopAt, Outer;
    forall b: nat | b < |g| ensures Innermost(g, b, loop[b], true) {
      TableEntry(g, order, loop1, outer1, b);
      LoopIsInnermost(g, order, b);
    }
    forall h: nat | h < |g| ensures if IsHeader(g, h) then Innermost(g, h, outer[h], false) else outer[h] == NoLoop {
      TableEntry(g, order, loop1, outer1, h);
      OuterIsInnermost(g, order, h);
    }
  }

  /** The lists of the loops other than the root are as they were. */
  lemma TreeListed(g: Graph, order: seq<nat>, loop1: seq<LoopRef>, outer1: seq<LoopRef>, loop: seq<LoopRef>, outer: seq<LoopRef>,
                   blocks: seq<seq<nat>>, inner: seq<seq<nat>>)
    requires Complete(g, order) && TablesAt(g, order, |order|, loop1, outer1) && |loop1| == |outer1| == |loop| == |outer| == |g|
    requires ListedAll(loop1, outer1, blocks, inner)
    requires forall b :: 0 <= b < |g| ==> loop[b] == OrRoot(loop1[b])
    requires forall h :: 0 <= h < |g| ==> outer[h] == if loop1[h] == Headed(h) then OrRoot(outer1[h]) else NoLoop
    ensures ListedAll(loop, outer, blocks, inner)
  {
    hide TablesAt, Complete;
    TableShape(g, order, loop1, outer1);
    forall h | 0 <= h < |blocks| ensures Listed(h, loop, outer, blocks[h], inner[h]) {
      assert Listed(h, loop1, outer1, blocks[h], inner[h]);
    }
  }

  lemma GreyOnPath(g: Graph, path: seq<nat>, grey: seq<bool>, black: seq<bool>, order: seq<nat>, e: seq<seq<nat>>, s: nat)
    requires Kept(g, path, grey, black, order, e) && s < |grey| && grey[s]
    ensures s in path
  {
  }

  lemma OffPath(g: Graph, path: seq<nat>, grey: seq<bool>, black: seq<bool>, order: seq<nat>, e: seq<seq<nat>>, s: nat)
    requires Kept(g, path, grey, black, order, e) && s < |grey| && !grey[s]
    ensures s !in path
  {
  }

  lemma StillGrey(g: Graph, path: seq<nat>, grey: seq<bool>, black: seq<bool>, order: seq<nat>, e: seq<seq<nat>>, b: nat)
    requires Kept(g, path, grey, black, order, e) && b < |grey| && grey[b]
    ensures b < |black| && !black[b]
  {
  }

  /** An edge to a block off the path is no back edge, and the path can be extended along it. */
  lemma ForwardEdge(g: Graph, path: seq<nat>, grey: seq<bool>, black: seq<bool>, order: seq<nat>, e: seq<seq<nat>>, s: nat)
    requires ValidGraph(g) && |path| > 0 && Path(g, path) && path[0] == 0 && NoRepeats(path)
    requires Kept(g, path, grey, black, order, e) && s < |grey| && s < |g| && !grey[s] && s in g[path[|path| - 1]]
    ensures !BackEdge(g, path[|path| - 1], s)
    ensures Path(g, path + [s]) && (path + [s])[0] == 0 && NoRepeats(path + [s])
  {
    hide Path, Kept, NoRepeats, BackEdge;
    OffPath(g, path, grey, black, order, e, s);
    NotBack(g, path, s);
    ChildPath(g, path, s);
  }

  /** An edge to a block on the path is a back edge not recorded yet. */
  lemma BackwardEdge(g: Graph, path: seq<nat>, grey0: seq<bool>, black0: seq<bool>, black: seq<bool>, order: seq<nat>,
                     e0: seq<seq<nat>>, e: seq<seq<nat>>, b: nat, k: nat)
    requires ValidGraph(g) && Reducible(g) && |path| > 0 && Path(g, path) && path[0] == 0 && NoRepeats(path)
    requires b < |g| == |grey0| && k < |g[b]| && g[b][k] < |g| && path[|path| - 1] == b && g[b][k] in g[b] && NoRepeats(g[b])
    requires !grey0[b] && grey0[b := true][g[b][k]]
    requires Kept(g, path, grey0[b := true], black, order, e) && Scanned(g, path, black, e, b, k)
    requires Progress(g, path, grey0, black0, black, e0, e)
    ensures EdgesOk(g, e) && BackEdge(g, b, g[b][k]) && g[b][k] < |e| && b !in e[g[b][k]]
    ensures var h := g[b][k]; var e' := e[h := e[h] + [b]];
      Kept(g, path, grey0[b := true], black, order, e') && Scanned(g, path, black, e', b, k + 1)
      && Progress(g, path, grey0, black0, black, e0, e')
  {
    hide Path, Reducible, Kept, Scanned, Progress, BackEdge, EdgesOk, NoRepeats;
    var grey := grey0[b := true];
    GreyOnPath(g, path, grey, black, order, e, g[b][k]);
    RetreatingEdge(g, path, g[b][k]);
    KeptEdges(g, path, grey, black, order, e);
    EdgesSize(g, e);
    NotRecorded(g, path, black, e, b, k);
    assert grey[b := false] == grey0;
    Recorded(g, path, grey, black0, black, order, e0, e, b, k);
  }

  lemma EdgesSize(g: Graph, e: seq<seq<nat>>)
    requires EdgesOk(g, e)
    ensures |e| == |g|
  {
  }

  /** What a finished search below a successor leaves. */
  lemma ChildDone(g: Graph, path: seq<nat>, grey0: seq<bool>, black0: seq<bool>, black1: seq<bool>, black: seq<bool>,
                  order: seq<nat>, e0: seq<seq<nat>>, e1: seq<seq<nat>>, e: seq<seq<nat>>, b: nat, k: nat)
    requires b < |g| == |grey0| == |black| && k <= |g[b]|
    requires Scanned(g, path, black1, e1, b, k) && Kept(g, path, grey0[b := true], black, order, e)
    requires Progress(g, path, grey0, black0, black1, e0, e1) && Progress(g, path, grey0[b := true], black1, black, e1, e)
    ensures Scanned(g, path, black, e, b, k) && Progress(g, path, grey0, black0, black, e0, e) && !black[b]
    ensures White(black, grey0[b := true]) <= White(black1, grey0[b := true])
  {
    hide Scanned, Progress, Kept, White;
    var grey := grey0[b := true];
    GrownWhite(g, path, grey, black1, black, e1, e);
    ScannedStays(g, path, grey, black1, black, e1, e, b, k);
    ProgressAdds(g, path, grey0, grey, black0, black1, black, e0, e1, e);
    StillGrey(g, path, grey, black, order, e, b);
  }

  lemma KeptEdges(g: Graph, path: seq<nat>, grey: seq<bool>, black: seq<bool>, order: seq<nat>, e: seq<seq<nat>>)
    requires Kept(g, path, grey, black, order, e)
    ensures EdgesOk(g, e)
  {
  }

  lemma RetreatingEdge(g: Graph, p: seq<nat>, h: nat)
    requires ValidGraph(g) && Reducible(g) && |p| > 0 && Path(g, p) && p[0] == 0 && h in g[p[|p| - 1]] && h in p && NoRepeats(p)
    ensures BackEdge(g, p[|p| - 1], h)
  {
    hide Path, Reducible;
    RetreatingIsBack(g, p, h);
  }

  /** Successors are different, so that the next one has not been recorded yet. */
  lemma NotRecorded(g: Graph, path: seq<nat>, black: seq<bool>, e: seq<seq<nat>>, b: nat, k: nat)
    requires b < |g| && k < |g[b]| && g[b][k] < |g| && Scanned(g, path, black, e, b, k) && NoRepeats(g[b])
    ensures b !in e[g[b][k]]
  {
    hide BackEdge;
    NewSuccessor(g, b, k);
  }

  /** Blocks only turn black. */
  lemma GrownWhite(g: Graph, path: seq<nat>, grey: seq<bool>, black1: seq<bool>, black: seq<bool>, e1: seq<seq<nat>>, e: seq<seq<nat>>)
    requires Progress(g, path, grey, black1, black, e1, e) && |grey| == |black| == |g|
    ensures White(black, grey) <= White(black1, grey)
  {
  }

  lemma NotOnPath(path: seq<nat>, b: nat)
    requires NoRepeats(path + [b])
    ensures b !in path
  {
    var here := path + [b];
    forall i | 0 <= i < |path| ensures path[i] != b { assert here[i] != here[|path|]; }
  }

  lemma ClosedNothing(preds: Graph, seen: seq<bool>)
    ensures |seen| == |preds| ==> BackClosed(preds, seen, seen)
    ensures Grows(seen, seen)
  {
  }

  lemma FillingFacts(h: nat, seen: seq<bool>, loop0: seq<LoopRef>, outer0: seq<LoopRef>,
                     loop: seq<LoopRef>, outer: seq<LoopRef>, blocks: seq<seq<nat>>, inner: seq<seq<nat>>, b: nat)
    requires Filling(h, seen, loop0, outer0, loop, outer, blocks, inner) && h < |seen| && b < |seen| && !seen[b]
    ensures |loop0| == |loop| == |seen| == |outer| == |blocks| == |inner| && loop[b] == loop0[b]
  {
  }

  lemma SeenOne(g: Graph, h: nat, seen: seq<bool>, b: nat)
    requires SeenInLoop(g, h, seen) && b < |seen| && InLoop(g, h, b)
    ensures SeenInLoop(g, h, seen[b := true])
  {
    hide InLoop;
  }

  lemma HeaderSeen(g: Graph, h: nat, seen: seq<bool>)
    requires IsHeader(g, h) && h < |g| && seen == seq(|g|, _ => false)[h := true]
    ensures SeenInLoop(g, h, seen)
  {
  }

  lemma WhiteSmaller(seen: seq<bool>, b: nat)
    requires b < |seen| && !seen[b]
    ensures White(seen[b := true], seen[b := true]) < White(seen, seen)
  {
    assert b in White(seen, seen);
  }

  lemma WhiteGrows(seen: seq<bool>, seen': seq<bool>)
    requires Grows(seen, seen')
    ensures White(seen', seen') <= White(seen, seen)
  {
  }

  lemma LatchInLoop(g: Graph, backEdges: seq<seq<nat>>, h: nat, l: nat)
    requires ValidGraph(g) && EdgesExact(g, backEdges) && h < |g| && l < |backEdges[h]|
    ensures backEdges[h][l] < |g| && InLoop(g, h, backEdges[h][l])
  {
    hide InLoop;
    assert backEdges[h][l] in backEdges[h];
    LatchIn(g, h, backEdges[h][l]);
  }

  lemma FillingListed(h: nat, seen: seq<bool>, loop0: seq<LoopRef>, outer0: seq<LoopRef>,
                      loop: seq<LoopRef>, outer: seq<LoopRef>, blocks: seq<seq<nat>>, inner: seq<seq<nat>>)
    requires Filling(h, seen, loop0, outer0, loop, outer, blocks, inner)
    ensures ListedAll(loop, outer, blocks, inner)
  {
  }

  lemma CompleteMember(g: Graph, order: seq<nat>, i: nat)
    requires Complete(g, order) && i < |order|
    ensures order[i] < |g|
  {
    assert order[i] in order;
  }

  lemma HeadersInTable(g: Graph, order: seq<nat>, i: nat, loop: seq<LoopRef>, outer: seq<LoopRef>)
    requires Complete(g, order) && TablesAt(g, order, i, loop, outer)
    ensures |loop| == |outer| == |g| && HeadersIn(loop, |g|)
  {
    hide IsHeader, InLoop, Outer;
    forall x | 0 <= x < |g| && loop[x].Headed? ensures loop[x].header < |g| {
      OuterFirst(g, order, i, x);
      assert forall j :: 0 <= j < |order| ==> order[j] in order;
    }
  }

  lemma HeadsItself(g: Graph, order: seq<nat>, i: nat, loop: seq<LoopRef>, outer: seq<LoopRef>, b: nat)
    requires TablesAt(g, order, i, loop, outer) && b < |g|
    ensures loop[b] == Headed(b) <==> IsHeader(g, b)
  {
    hide IsHeader, InLoop, Outer;
    OuterFirst(g, order, i, b);
  }

  lemma TableEntry(g: Graph, order: seq<nat>, loop: seq<LoopRef>, outer: seq<LoopRef>, b: nat)
    requires TablesAt(g, order, |order|, loop, outer) && b < |g|
    ensures |loop| == |outer| == |g| && loop[b] == LoopAt(g, order, |order|, b)
    ensures outer[b] == if IsHeader(g, b) then Outer(g, order, |order|, b) else NoLoop
    ensures loop[b] == Headed(b) <==> IsHeader(g, b)
  {
    hide IsHeader, InLoop;
    HeadsItself(g, order, |order|, loop, outer, b);
  }

  lemma TableShape(g: Graph, order: seq<nat>, loop: seq<LoopRef>, outer: seq<LoopRef>)
    requires TablesAt(g, order, |order|, loop, outer) && Complete(g, order)
    ensures |loop| == |outer| == |g| && Shaped(loop, outer)
  {
    hide IsHeader, InLoop, Outer, Complete, TablesAt, LoopAt;
    HeadersInTable(g, order, |order|, loop, outer);
    forall b | 0 <= b < |g|
      ensures loop[b] != Root && outer[b] != Root && (loop[b] != Headed(b) ==> outer[b] == NoLoop)
      ensures loop[b].Headed? ==> loop[loop[b].header] == loop[b]
    {
      TableEntry(g, order, loop, outer, b);
      if loop[b].Headed? {
        TableEntry(g, order, loop, outer, loop[b].header);
        HeaderOf(g, order, b);
      }
    }
  }

  lemma HeaderOf(g: Graph, order: seq<nat>, b: nat)
    requires LoopAt(g, order, |order|, b).Headed?
    ensures IsHeader(g, LoopAt(g, order, |order|, b).header)
  {
    hide IsHeader, InLoop;
    OuterFirst(g, order, |order|, b);
  }

  /** The outer loop of loop `h` once the blocks of `done` have been looked at. */
  ghost function Raised(loop0: seq<LoopRef>, outer0: seq<LoopRef>, done: seq<nat>, h: nat): LoopRef
    requires h < |outer0|
  {
    if exists b :: b in done && b < |loop0| && loop0[b] == Headed(h) then OrRoot(outer0[h]) else outer0[h]
  }

  /** Headers head their own loop, and nothing refers to the root yet. */
  predicate Shaped(loop0: seq<LoopRef>, outer0: seq<LoopRef>) {
    && |loop0| == |outer0|
    && (forall b :: 0 <= b < |loop0| ==> loop0[b] != Root && outer0[b] != Root && (loop0[b] != Headed(b) ==> outer0[b] == NoLoop))
    && forall b :: 0 <= b < |loop0| && loop0[b].Headed? ==> loop0[b].header < |loop0| && loop0[loop0[b].header] == loop0[b]
  }

  /** The blocks of `done` have been looked at, and what they left without a loop hangs under the root. */
  ghost predicate Hung(loop0: seq<LoopRef>, outer0: seq<LoopRef>, done: seq<nat>, loop: seq<LoopRef>, outer: seq<LoopRef>,
                       rootBlocks: seq<nat>, rootInner: seq<nat>) {
    && |loop0| == |outer0| == |loop| == |outer|
    && (forall b: nat :: b < |loop| ==> loop[b] == if b in done then OrRoot(loop0[b]) else loop0[b])
    && (forall h: nat :: h < |outer| ==> outer[h] == Raised(loop0, outer0, done, h))
    && (forall b: nat :: b in rootBlocks <==> b < |loop| && loop[b] == Root)
    && (forall h: nat :: h in rootInner <==> h < |outer| && outer[h] == Root)
  }

  lemma HungNone(loop0: seq<LoopRef>, outer0: seq<LoopRef>)
    requires Shaped(loop0, outer0)
    ensures Hung(loop0, outer0, [], loop0, outer0, [], [])
  {
  }

  lemma HungRange(loop0: seq<LoopRef>, outer0: seq<LoopRef>, done: seq<nat>, loop: seq<LoopRef>, outer: seq<LoopRef>,
                  rootBlocks: seq<nat>, rootInner: seq<nat>, b: nat)
    requires Shaped(loop0, outer0) && Hung(loop0, outer0, done, loop, outer, rootBlocks, rootInner) && b < |loop|
    ensures |outer| == |loop| && (loop[b].Headed? ==> loop[b].header < |loop|)
  {
    hide Raised;
  }

  lemma RaisedOne(loop0: seq<LoopRef>, outer0: seq<LoopRef>, done: seq<nat>, b: nat, h: nat)
    requires h < |outer0| && b < |loop0|
    ensures Raised(loop0, outer0, done + [b], h) ==
      if loop0[b] == Headed(h) then OrRoot(outer0[h]) else Raised(loop0, outer0, done, h)
  {
    assert b in done + [b];
  }

  lemma HungBlock(loop0: seq<LoopRef>, outer0: seq<LoopRef>, done: seq<nat>, loop: seq<LoopRef>, outer: seq<LoopRef>,
                  rootBlocks: seq<nat>, rootInner: seq<nat>, b: nat)
    requires Shaped(loop0, outer0) && Hung(loop0, outer0, done, loop, outer, rootBlocks, rootInner) && b < |loop|
    requires loop[b] == NoLoop
    ensures Hung(loop0, outer0, done + [b], loop[b := Root], outer, rootBlocks + [b], rootInner)
  {
    hide Raised;
    forall h: nat | h < |outer| ensures outer[h] == Raised(loop0, outer0, done + [b], h) {
      RaisedOne(loop0, outer0, done, b, h);
    }
  }

  lemma HungLoop(loop0: seq<LoopRef>, outer0: seq<LoopRef>, done: seq<nat>, loop: seq<LoopRef>, outer: seq<LoopRef>,
                 rootBlocks: seq<nat>, rootInner: seq<nat>, b: nat)
    requires Shaped(loop0, outer0) && Hung(loop0, outer0, done, loop, outer, rootBlocks, rootInner) && b < |loop|
    requires loop[b].Headed? && loop[b].header < |outer| && outer[loop[b].header] == NoLoop
    ensures Hung(loop0, outer0, done + [b], loop, outer[loop[b].header := Root], rootBlocks, rootInner + [loop[b].header])
  {
    RaisedFrom(loop0, outer0, done, loop[b].header);
    HungOuter(loop0, outer0, done, loop, outer, rootBlocks, rootInner, b, outer[loop[b].header := Root]);
  }

  lemma HungAlready(loop0: seq<LoopRef>, outer0: seq<LoopRef>, done: seq<nat>, loop: seq<LoopRef>, outer: seq<LoopRef>,
                    rootBlocks: seq<nat>, rootInner: seq<nat>, b: nat)
    requires Shaped(loop0, outer0) && Hung(loop0, outer0, done, loop, outer, rootBlocks, rootInner) && b < |loop|
    requires loop[b] != NoLoop && (loop[b].Headed? ==> loop[b].header < |outer| && outer[loop[b].header] != NoLoop)
    ensures Hung(loop0, outer0, done + [b], loop, outer, rootBlocks, rootInner)
  {
    if loop[b].Headed? { RaisedFrom(loop0, outer0, done, loop[b].header); }
    HungOuter(loop0, outer0, done, loop, outer, rootBlocks, rootInner, b, outer);
  }

  /** A loop is as it was or under the root. */
  lemma RaisedFrom(loop0: seq<LoopRef>, outer0: seq<LoopRef>, done: seq<nat>, h: nat)
    requires h < |outer0|
    ensures Raised(loop0, outer0, done, h) == outer0[h] || (Raised(loop0, outer0, done, h) == Root && outer0[h] == NoLoop)
  {
  }

  lemma HungOuter(loop0: seq<LoopRef>, outer0: seq<LoopRef>, done: seq<nat>, loop: seq<LoopRef>, outer: seq<LoopRef>,
                  rootBlocks: seq<nat>, rootInner: seq<nat>, b: nat, outer': seq<LoopRef>)
    requires Shaped(loop0, outer0) && Hung(loop0, outer0, done, loop, outer, rootBlocks, rootInner) && b < |loop|
    requires |outer'| == |outer| && loop[b] != NoLoop
    requires forall h :: 0 <= h < |outer| ==> outer'[h] == if loop0[b] == Headed(h) then OrRoot(outer0[h]) else outer[h]
    ensures forall h: nat :: h < |outer'| ==> outer'[h] == Raised(loop0, outer0, done + [b], h)
    ensures forall x: nat :: x < |loop| ==> loop[x] == if x in done + [b] then OrRoot(loop0[x]) else loop0[x]
  {
    hide Raised;
    forall h: nat | h < |outer| ensures outer'[h] == Raised(loop0, outer0, done + [b], h) {
      RaisedOne(loop0, outer0, done, b, h);
    }
  }

  lemma HungAll(g: Graph, order: seq<nat>, loop0: seq<LoopRef>, outer0: seq<LoopRef>, loop: seq<LoopRef>, outer: seq<LoopRef>,
                rootBlocks: seq<nat>, rootInner: seq<nat>)
    requires Complete(g, order) && Shaped(loop0, outer0) && Hung(loop0, outer0, order, loop, outer, rootBlocks, rootInner)
    requires |loop0| == |g|
    ensures |loop| == |outer| == |g|
    ensures forall b :: 0 <= b < |g| ==> loop[b] == OrRoot(loop0[b])
    ensures forall h :: 0 <= h < |g| ==> outer[h] == if loop0[h] == Headed(h) then OrRoot(outer0[h]) else NoLoop
    ensures forall b: nat :: b in rootBlocks <==> b < |g| && loop[b] == Root
    ensures forall h: nat :: h in rootInner <==> h < |g| && outer[h] == Root
  {
    hide Raised;
    CompleteFacts(g, order);
    forall h: nat | h < |g| ensures outer[h] == if loop0[h] == Headed(h) then OrRoot(outer0[h]) else NoLoop {
      RaisedAll(order, loop0, outer0, h);
    }
  }

  lemma RaisedAll(order: seq<nat>, loop0: seq<LoopRef>, outer0: seq<LoopRef>, h: nat)
    requires h in order && h < |loop0| && Shaped(loop0, outer0)
    ensures Raised(loop0, outer0, order, h) == if loop0[h] == Headed(h) then OrRoot(outer0[h]) else NoLoop
  {
  }

  lemma SearchStarts(g: Graph, grey: seq<bool>, black: seq<bool>, e: seq<seq<nat>>, loop: seq<LoopRef>,
                     irreducible: seq<bool>, blocks: seq<seq<nat>>)
    requires |g| > 0 && |grey| == |black| == |e| == |loop| == |irreducible| == |blocks| == |g|
    requires forall x :: 0 <= x < |g| ==> !grey[x] && !black[x] && !irreducible[x] && loop[x] == NoLoop && e[x] == [] && blocks[x] == []
    ensures Kept(g, [], grey, black, [], e) && LoopsMade(e, loop, irreducible, blocks)
    ensures Path(g, [] + [0]) && ([] + [0])[0] == 0 && NoRepeats([] + [0])
  {
  }

  lemma NoneIrreducible(e: seq<seq<nat>>, loop: seq<LoopRef>, irreducible: seq<bool>, blocks: seq<seq<nat>>)
    requires LoopsMade(e, loop, irreducible, blocks)
    ensures forall h :: 0 <= h < |irreducible| ==> !irreducible[h]
  {
  }

  lemma NothingNew(g: Graph, black: seq<bool>, path: seq<nat>)
    requires |black| == |g|
    ensures NewClosed(g, black, black, path)
  {
  }

  lemma ClosedHere(g: Graph, black: seq<bool>, path: seq<nat>, b: nat)
    requires b < |g| && forall j :: 0 <= j < |g[b]| ==> (g[b][j] < |black| && black[g[b][j]]) || g[b][j] in path
    ensures Closed(g, black, path, b)
  {
  }
}
