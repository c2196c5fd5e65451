/** Runtime checks in control-flow graphs: dominance by paths, runs, and when a check cannot fail. */
module CheckModel {
  datatype Kind = Plain | NullCheck | ZeroCheck | NegativeCheck | BoundsCheck

  datatype Node = Node(kind: Kind, inputs: seq<nat>)

  /** `blocks[b]` lists the instructions of block `b`, `succs[b]` where control may go; block 0 is the entry.
      An instruction stands for the value it computes; `home[i]` is its block. */
  datatype Graph = Graph(nodes: seq<Node>, blocks: seq<seq<nat>>, succs: seq<seq<nat>>, home: seq<nat>)

  predicate ValidGraph(g: Graph) {
    && |g.home| == |g.nodes| && |g.succs| == |g.blocks| > 0
    && (forall i, k :: 0 <= i < |g.nodes| && 0 <= k < |g.nodes[i].inputs| ==> g.nodes[i].inputs[k] < |g.nodes|)
    && (forall i :: 0 <= i < |g.nodes| ==> g.home[i] < |g.blocks| && i in g.blocks[g.home[i]])
    && (forall b, k :: 0 <= b < |g.blocks| && 0 <= k < |g.blocks[b]| ==> g.blocks[b][k] < |g.nodes| && g.home[g.blocks[b][k]] == b)
    && (forall b, k, l :: 0 <= b < |g.blocks| && 0 <= k < l < |g.blocks[b]| ==> g.blocks[b][k] != g.blocks[b][l])
  }

  predicate IsPath(g: Graph, p: seq<nat>) {
    && |p| > 0 && |g.succs| == |g.blocks| && (forall k :: 0 <= k < |p| ==> p[k] < |g.blocks|)
    && forall k :: 0 <= k < |p| - 1 ==> p[k + 1] in g.succs[p[k]]
  }

  predicate FromEntry(g: Graph, p: seq<nat>, b: nat) { IsPath(g, p) && p[0] == 0 && p[|p| - 1] == b }

  /** Every path from the entry to `b` goes through `a`. */
  ghost predicate BlockDominates(g: Graph, a: nat, b: nat) { forall p :: FromEntry(g, p, b) ==> a in p }

  ghost predicate Reachable(g: Graph, b: nat) { exists p :: FromEntry(g, p, b) }

  /** Position of an instruction in its block. */
  function Position(ids: seq<nat>, i: nat): (k: nat)
    requires i in ids
    ensures k < |ids| && ids[k] == i && forall j :: 0 <= j < k ==> ids[j] != i
  {
    if ids[0] == i then 0
    else
      assert ids == [ids[0]] + ids[1..];
      1 + Position(ids[1..], i)
  }

  predicate Earlier(g: Graph, i: nat, j: nat)
    requires ValidGraph(g) && i < |g.nodes| && j < |g.nodes|
  {
    g.home[i] == g.home[j] && Position(g.blocks[g.home[i]], i) < Position(g.blocks[g.home[j]], j)
  }

  /** `i` is always executed before `j`, and is not `j`. */
  ghost predicate Dominates(g: Graph, i: nat, j: nat)
    requires ValidGraph(g) && i < |g.nodes| && j < |g.nodes|
  {
    Earlier(g, i, j) || (g.home[i] != g.home[j] && BlockDominates(g, g.home[i], g.home[j]))
  }

  /** Every block is reachable, and operands of checks are computed before the checks. */
  ghost predicate Strict(g: Graph) {
    && ValidGraph(g) && (forall b :: 0 <= b < |g.blocks| ==> Reachable(g, b))
    && (forall i, k :: 0 <= i < |g.nodes| && g.nodes[i].kind != Plain && 0 <= k < |g.nodes[i].inputs| ==>
          Dominates(g, g.nodes[i].inputs[k], i))
  }

  /** The same check: it fails on the same values. */
  predicate SameCheck(g: Graph, i: nat, j: nat)
    requires i < |g.nodes| && j < |g.nodes|
  {
    g.nodes[i].kind != Plain && g.nodes[i].kind == g.nodes[j].kind && g.nodes[i].inputs == g.nodes[j].inputs
  }

  // ----- Dominance -----

  lemma PrefixPath(g: Graph, p: seq<nat>, k: nat)
    requires IsPath(g, p) && k < |p| && p[0] == 0
    ensures FromEntry(g, p[..k + 1], p[k])
  {
  }

  /** Position of the first, and of the last, visit. */
  lemma {:induction false} FirstVisit(p: seq<nat>, a: nat) returns (f: nat)
    requires a in p
    ensures f < |p| && p[f] == a && a !in p[..f]
  {
    if p[0] == a { f := 0; } else {
      assert p == [p[0]] + p[1..];
      f := FirstVisit(p[1..], a);
      f := f + 1;
      assert p[..f] == [p[0]] + p[1..][..f - 1];
    }
  }

  lemma {:induction false} LastVisit(p: seq<nat>, a: nat) returns (l: nat)
    requires a in p
    ensures l < |p| && p[l] == a && a !in p[l + 1..]
  {
    var n := |p| - 1;
    if p[n] == a { l := n; } else {
      assert p == p[..n] + [p[n]];
      l := LastVisit(p[..n], a);
      assert p[l + 1..] == p[..n][l + 1..] + [p[n]];
    }
  }

  lemma JoinPaths(g: Graph, p: seq<nat>, f: nat, l: nat)
    requires IsPath(g, p) && p[0] == 0 && f <= l < |p| && p[f] == p[l]
    ensures FromEntry(g, p[..f] + p[l..], p[|p| - 1])
  {
    var q := p[..f] + p[l..];
    forall k | 0 <= k < |q| - 1 ensures q[k + 1] in g.succs[q[k]] {
      if k + 1 < f {
        assert q[k] == p[k] && q[k + 1] == p[k + 1];
      } else if k + 1 == f {
        assert q[k] == p[k] && q[k + 1] == p[l] == p[k + 1];
      } else {
        assert q[k] == p[l + k - f] && q[k + 1] == p[l + k + 1 - f];
      }
    }
  }

  /** A dominator is visited no later. */
  lemma VisitBefore(g: Graph, p: seq<nat>, a: nat, b: nat, j: nat, f: nat)
    requires IsPath(g, p) && p[0] == 0 && j < f <= |p| && p[j] == b && BlockDominates(g, a, b)
    ensures a in p[..f]
  {
    PrefixPath(g, p, j);
    assert a in p[..j + 1];
    var k :| 0 <= k < j + 1 && p[k] == a;
    assert p[..f][k] == a;
  }

  /** Joining the first visit of `a` to a later one skips what lies between. */
  lemma SkipBetween(g: Graph, p: seq<nat>, a: nat, b: nat, m: nat) returns (q: seq<nat>)
    requires IsPath(g, p) && p[0] == 0 && m < |p| && p[m] == b && b !in p[m + 1..]
    requires BlockDominates(g, a, b) && a != b && a in p[m + 1..]
    ensures FromEntry(g, q, p[|p| - 1]) && b !in q
  {
    hide BlockDominates, FromEntry, IsPath;
    var l0 := LastVisit(p[m + 1..], a);
    var l := m + 1 + l0;
    assert p[l] == a && p[l..] == p[m + 1..][l0..];
    assert p[..l + 1][l] == a;
    var f := FirstVisit(p, a);
    FirstIsFirst(p, a, f, l);
    forall j | 0 <= j < f ensures p[j] != b {
      if p[j] == b { VisitBefore(g, p, a, b, j, f); }
    }
    JoinPaths(g, p, f, l);
    q := p[..f] + p[l..];
  }

  lemma FirstIsFirst(p: seq<nat>, a: nat, f: nat, l: nat)
    requires f <= |p| && a !in p[..f] && l < |p| && p[l] == a
    ensures f <= l
  {
    assert forall j :: 0 <= j < f ==> p[j] == p[..f][j];
  }

  /** If `a` dominates `b` and `b` dominates the end of the path, `a` is not visited after the last `b`. */
  lemma NotAfter(g: Graph, p: seq<nat>, a: nat, b: nat, m: nat)
    requires IsPath(g, p) && p[0] == 0 && m < |p| && p[m] == b && b !in p[m + 1..]
    requires BlockDominates(g, a, b) && BlockDominates(g, b, p[|p| - 1]) && a != b
    ensures a !in p[m + 1..]
  {
    if a in p[m + 1..] {
      var q := SkipBetween(g, p, a, b, m);
    }
  }

  /** Two blocks that dominate each other are one. */
  lemma Antisymmetric(g: Graph, a: nat, b: nat)
    requires BlockDominates(g, a, b) && BlockDominates(g, b, a) && Reachable(g, b)
    ensures a == b
  {
    hide BlockDominates, IsPath;
    var p :| FromEntry(g, p, b);
    if a != b {
      DominatorVisited(g, p, a, b);
      var m := FirstVisit(p, a);
      PrefixPath(g, p, m);
      DominatorVisited(g, p[..m + 1], b, a);
      var j := FirstVisit(p[..m + 1], b);
      VisitBefore(g, p, a, b, j, m);
    }
  }

  lemma DominatesTransitive(g: Graph, i: nat, j: nat, k: nat)
    requires Strict(g) && i < |g.nodes| && j < |g.nodes| && k < |g.nodes| && Dominates(g, i, j) && Dominates(g, j, k)
    ensures Dominates(g, i, k)
  {
    var a, b, c := g.home[i], g.home[j], g.home[k];
    if a != b && b != c {
      forall p | FromEntry(g, p, c) ensures a in p {
        var m := FirstVisit(p, b);
        PrefixPath(g, p, m);
        assert a in p[..m + 1];
      }
      if a == c { Antisymmetric(g, a, b); }
    }
  }

  // ----- Runs -----

  /** What instructions compute, for any machine state `mem` and with the values at entry of the block for
      phis; where control goes; which values fail which check. */
  datatype World = World(
    value: (nat, seq<int>, seq<int>, nat, int) -> int,
    effect: (nat, seq<int>, seq<int>, nat, int) -> int,
    next: (nat, seq<int>, int) -> int,
    fails: (Kind, seq<int>) -> bool)

  datatype State = State(env: seq<int>, mem: int)

  /** A failing check ends the run and shows what failed. */
  datatype Outcome = Failed(kind: Kind, values: seq<int>, mem: int) | Going(s: State)

  function Operands(env: seq<int>, inputs: seq<nat>): seq<int>
    requires forall k :: 0 <= k < |inputs| ==> inputs[k] < |env|
  {
    seq(|inputs|, k requires 0 <= k < |inputs| => env[inputs[k]])
  }

  predicate Passes(w: World, g: Graph, i: nat, env: seq<int>)
    requires ValidGraph(g) && i < |g.nodes| && |env| == |g.nodes|
  {
    !w.fails(g.nodes[i].kind, Operands(env, g.nodes[i].inputs))
  }

  function Execute(w: World, g: Graph, i: nat, before: seq<int>, prev: nat, s: State): (o: Outcome)
    requires ValidGraph(g) && i < |g.nodes| && |s.env| == |g.nodes|
    ensures o.Going? ==> |o.s.env| == |g.nodes|
  {
    if g.nodes[i].kind == Plain then
      Going(State(s.env[i := w.value(i, s.env, before, prev, s.mem)], w.effect(i, s.env, before, prev, s.mem)))
    else if Passes(w, g, i, s.env) then Going(s)
    else Failed(g.nodes[i].kind, Operands(s.env, g.nodes[i].inputs), s.mem)
  }

  /** The instructions of a block from the `k`th on, without those in `gone`. */
  function Body(w: World, g: Graph, gone: set<nat>, b: nat, k: nat, before: seq<int>, prev: nat, s: State): (o: Outcome)
    requires ValidGraph(g) && b < |g.blocks| && k <= |g.blocks[b]| && |s.env| == |g.nodes|
    ensures o.Going? ==> |o.s.env| == |g.nodes|
    decreases |g.blocks[b]| - k
  {
    if k == |g.blocks[b]| then Going(s)
    else if g.blocks[b][k] in gone then Body(w, g, gone, b, k + 1, before, prev, s)
    else
      match Execute(w, g, g.blocks[b][k], before, prev, s)
      case Going(s') => Body(w, g, gone, b, k + 1, before, prev, s')
      case o => o
  }

  /** At most `n` blocks. Control leaves for a successor, or the run ends. */
  function Run(w: World, g: Graph, gone: set<nat>, prev: nat, b: nat, s: State, n: nat): (o: Outcome)
    requires ValidGraph(g) && b < |g.blocks| && |s.env| == |g.nodes|
    decreases n
  {
    if n == 0 then Going(s)
    else
      match Body(w, g, gone, b, 0, s.env, prev, s)
      case Failed(k, v, m) => Failed(k, v, m)
      case Going(s') =>
        var c := w.next(b, s'.env, s'.mem);
        if 0 <= c < |g.blocks| && c in g.succs[b] then Run(w, g, gone, b, c, s', n - 1) else Going(s')
  }

  // ----- Checks that cannot fail -----

  /** Checks executed since their operands were last computed. */
  function Fresh(g: Graph, held: set<nat>, i: nat): set<nat>
    requires ValidGraph(g) && i < |g.nodes|
  {
    (set c | c in held && c < |g.nodes| && i !in g.nodes[c].inputs) + (if g.nodes[i].kind == Plain then {} else {i})
  }

  function FreshIn(g: Graph, held: set<nat>, b: nat, k: nat): set<nat>
    requires ValidGraph(g) && b < |g.blocks| && k <= |g.blocks[b]|
  {
    if k == 0 then held else Fresh(g, FreshIn(g, held, b, k - 1), g.blocks[b][k - 1])
  }

  function FreshAlong(g: Graph, p: seq<nat>): set<nat>
    requires ValidGraph(g) && forall k :: 0 <= k < |p| ==> p[k] < |g.blocks|
  {
    if p == [] then {} else
      var b := p[|p| - 1];
      FreshIn(g, FreshAlong(g, p[..|p| - 1]), b, |g.blocks[b]|)
  }

  /** A check stays fresh while none of its operands is computed. */
  lemma {:induction false} StaysFresh(g: Graph, held: set<nat>, b: nat, j: nat, k: nat, c: nat)
    requires ValidGraph(g) && b < |g.blocks| && j <= k <= |g.blocks[b]| && c < |g.nodes| && c in FreshIn(g, held, b, j)
    requires forall l :: j <= l < k ==> g.blocks[b][l] !in g.nodes[c].inputs
    ensures c in FreshIn(g, held, b, k)
    decreases k
  {
    if j < k { StaysFresh(g, held, b, j, k - 1, c); }
  }

  /** No operand of `c` is computed in block `b` from position `j` up to `k`. */
  predicate Quiet(g: Graph, b: nat, j: nat, k: nat, c: nat)
    requires ValidGraph(g) && b < |g.blocks| && k <= |g.blocks[b]| && c < |g.nodes|
  {
    forall l :: j <= l < k ==> g.blocks[b][l] !in g.nodes[c].inputs
  }

  /** The operands of a check in its own block come before it. */
  lemma QuietAfter(g: Graph, c: nat, k: nat)
    requires Strict(g) && c < |g.nodes| && g.nodes[c].kind != Plain && k <= |g.blocks[g.home[c]]|
    ensures var b := g.home[c]; Quiet(g, b, Position(g.blocks[b], c), k, c)
  {
    hide Strict;
    StrictValid(g);
    var b := g.home[c];
    var j := Position(g.blocks[b], c);
    forall l | j <= l < k ensures g.blocks[b][l] !in g.nodes[c].inputs {
      var i := g.blocks[b][l];
      if i in g.nodes[c].inputs { OperandDominates(g, c, i); }
    }
  }

  lemma OperandDominates(g: Graph, c: nat, i: nat)
    requires Strict(g) && c < |g.nodes| && g.nodes[c].kind != Plain && i in g.nodes[c].inputs
    ensures i < |g.nodes| && Dominates(g, i, c)
  {
    var a :| 0 <= a < |g.nodes[c].inputs| && g.nodes[c].inputs[a] == i;
  }

  /** Once executed in its block, a check is fresh up to position `k`. */
  lemma FreshAfter(g: Graph, held: set<nat>, c: nat, k: nat)
    requires Strict(g) && c < |g.nodes| && g.nodes[c].kind != Plain
    requires Position(g.blocks[g.home[c]], c) < k <= |g.blocks[g.home[c]]|
    ensures c in FreshIn(g, held, g.home[c], k)
  {
    hide Strict;
    StrictValid(g);
    var b := g.home[c];
    var j := Position(g.blocks[b], c);
    QuietAfter(g, c, k);
    assert c in FreshIn(g, held, b, j + 1);
    StaysFresh(g, held, b, j + 1, k, c);
  }

  lemma StrictValid(g: Graph)
    requires Strict(g)
    ensures ValidGraph(g)
  {
  }

  /** Operands of `c` computed in block `x` would put `x` after the last visit of the home of `c`. */
  lemma QuietBlock(g: Graph, p: seq<nat>, c: nat, m: nat, x: nat)
    requires Strict(g) && c < |g.nodes| && g.nodes[c].kind != Plain && IsPath(g, p) && p[0] == 0
    requires m < |p| && p[m] == g.home[c] && g.home[c] !in p[m + 1..] && BlockDominates(g, g.home[c], p[|p| - 1])
    requires x in p[m + 1..]
    ensures x < |g.blocks| && Quiet(g, x, 0, |g.blocks[x]|, c)
  {
    var b := g.home[c];
    forall l | 0 <= l < |g.blocks[x]| ensures g.blocks[x][l] !in g.nodes[c].inputs {
      var i := g.blocks[x][l];
      if i in g.nodes[c].inputs {
        OperandDominates(g, c, i);
        NotAfter(g, p, x, b, m);
      }
    }
  }

  /** Along a path whose end its block dominates, a check of another block is fresh at the end. */
  lemma {:induction false} FreshSince(g: Graph, p: seq<nat>, c: nat, m: nat, n: nat)
    requires Strict(g) && c < |g.nodes| && g.nodes[c].kind != Plain && IsPath(g, p) && p[0] == 0
    requires m < n <= |p| && p[m] == g.home[c] && g.home[c] !in p[m + 1..] && BlockDominates(g, g.home[c], p[|p| - 1])
    ensures c in FreshAlong(g, p[..n])
    decreases n
  {
    hide Strict, BlockDominates, FreshIn;
    StrictValid(g);
    var b := p[n - 1];
    assert p[..n][..n - 1] == p[..n - 1];
    var held := FreshAlong(g, p[..n - 1]);
    if n - 1 == m {
      FreshAfter(g, held, c, |g.blocks[b]|);
    } else {
      FreshSince(g, p, c, m, n - 1);
      assert p[m + 1..][n - 2 - m] == b;
      QuietBlock(g, p, c, m, b);
      FreshStart(g, held, b);
      StaysFresh(g, held, b, 0, |g.blocks[b]|, c);
    }
  }

  lemma FreshStart(g: Graph, held: set<nat>, b: nat)
    requires ValidGraph(g) && b < |g.blocks|
    ensures FreshIn(g, held, b, 0) == held
  {
  }

  /** Where a check is about to be executed, a dominating one with the same operands is fresh. */
  lemma DominatorFresh(g: Graph, p: seq<nat>, b: nat, k: nat, c: nat)
    requires Strict(g) && FromEntry(g, p + [b], b) && b < |g.blocks| && (forall l :: 0 <= l < |p| ==> p[l] < |g.blocks|)
    requires k < |g.blocks[b]| && c < |g.nodes| && g.nodes[c].kind != Plain
    requires Dominates(g, c, g.blocks[b][k])
    ensures c in FreshIn(g, FreshAlong(g, p), b, k)
  {
    hide FreshIn, FreshAlong, BlockDominates;
    var held := FreshAlong(g, p);
    var u := g.blocks[b][k];
    assert Position(g.blocks[b], u) == k;
    if g.home[c] == b {
      FreshAfter(g, held, c, k);
    } else {
      var q := p + [b];
      DominatorVisited(g, q, g.home[c], b);
      var m := LastVisit(q, g.home[c]);
      FreshSince(g, q, c, m, |p|);
      assert q[..|p|] == p;
      assert q[m + 1..][|q| - 1 - (m + 1)] == b;
      QuietBlock(g, q, c, m, b);
      FreshStart(g, held, b);
      StaysFresh(g, held, b, 0, k, c);
    }
  }

  lemma DominatorVisited(g: Graph, p: seq<nat>, a: nat, b: nat)
    requires FromEntry(g, p, b) && BlockDominates(g, a, b)
    ensures a in p
  {
  }

  // ----- Removing checks -----

  /** A check that stays is always executed before `u` and fails on the same values. */
  predicate CoveredBy(g: Graph, gone: set<nat>, u: nat, c: nat)
    requires u < |g.nodes|
  {
    c < |g.nodes| && c !in gone && SameCheck(g, c, u)
  }

  ghost predicate Covered(g: Graph, gone: set<nat>, u: nat)
    requires ValidGraph(g) && u < |g.nodes|
  {
    exists c: nat :: CoveredBy(g, gone, u, c) && Dominates(g, c, u)
  }

  /** Every check removed is covered by one that stays. */
  ghost predicate AllCovered(g: Graph, gone: set<nat>)
    requires ValidGraph(g)
  {
    forall u :: u in gone ==> u < |g.nodes| && Covered(g, gone, u)
  }

  /** The checks executed since their operands were computed would pass again. */
  ghost predicate HeldPass(w: World, g: Graph, held: set<nat>, env: seq<int>)
    requires ValidGraph(g) && |env| == |g.nodes|
  {
    forall c :: c in held ==> c < |g.nodes| && Passes(w, g, c, env)
  }

  lemma HeldStep(w: World, g: Graph, held: set<nat>, i: nat, before: seq<int>, prev: nat, s: State)
    requires ValidGraph(g) && |s.env| == |g.nodes| && i < |g.nodes| && HeldPass(w, g, held, s.env)
    ensures var o := Execute(w, g, i, before, prev, s); o.Going? ==> HeldPass(w, g, Fresh(g, held, i), o.s.env)
  {
    var o := Execute(w, g, i, before, prev, s);
    if o.Going? {
      forall c | c in Fresh(g, held, i) ensures c < |g.nodes| && Passes(w, g, c, o.s.env) {
        assert Operands(o.s.env, g.nodes[c].inputs) == Operands(s.env, g.nodes[c].inputs) || c == i;
      }
    }
  }

  /** A removed check would have passed. */
  lemma RemovedPasses(w: World, g: Graph, gone: set<nat>, p: seq<nat>, b: nat, k: nat, before: seq<int>, prev: nat, s: State)
    requires Strict(g) && AllCovered(g, gone) && FromEntry(g, p + [b], b) && b < |g.blocks| && |s.env| == |g.nodes|
    requires (forall l :: 0 <= l < |p| ==> p[l] < |g.blocks|) && k < |g.blocks[b]| && g.blocks[b][k] in gone
    requires HeldPass(w, g, FreshIn(g, FreshAlong(g, p), b, k), s.env)
    ensures Execute(w, g, g.blocks[b][k], before, prev, s) == Going(s)
  {
    hide Strict, FreshIn, FreshAlong, Dominates;
    StrictValid(g);
    var u := g.blocks[b][k];
    var c: nat :| CoveredBy(g, gone, u, c) && Dominates(g, c, u);
    DominatorFresh(g, p, b, k, c);
    assert Passes(w, g, c, s.env);
  }

  lemma {:induction false} BodyPreserved(w: World, g: Graph, gone: set<nat>, p: seq<nat>, b: nat, k: nat,
      before: seq<int>, prev: nat, s: State)
    requires Strict(g) && AllCovered(g, gone) && FromEntry(g, p + [b], b) && b < |g.blocks| && |s.env| == |g.nodes|
    requires (forall l :: 0 <= l < |p| ==> p[l] < |g.blocks|) && k <= |g.blocks[b]|
    requires HeldPass(w, g, FreshIn(g, FreshAlong(g, p), b, k), s.env)
    ensures var o := Body(w, g, {}, b, k, before, prev, s);
      o == Body(w, g, gone, b, k, before, prev, s)
      && (o.Going? ==> HeldPass(w, g, FreshIn(g, FreshAlong(g, p), b, |g.blocks[b]|), o.s.env))
    decreases |g.blocks[b]| - k
  {
    hide Strict, AllCovered, FreshAlong, HeldPass, Fresh, Execute, IsPath, FromEntry;
    StrictValid(g);
    if k < |g.blocks[b]| {
      var u := g.blocks[b][k];
      var held := FreshIn(g, FreshAlong(g, p), b, k);
      HeldStep(w, g, held, u, before, prev, s);
      if u in gone { RemovedPasses(w, g, gone, p, b, k, before, prev, s); }
      match Execute(w, g, u, before, prev, s)
      case Going(s') => BodyPreserved(w, g, gone, p, b, k + 1, before, prev, s');
      case _ =>
    }
  }

  lemma {:induction false} RunPreserved(w: World, g: Graph, gone: set<nat>, p: seq<nat>, prev: nat, b: nat, s: State, n: nat)
    requires Strict(g) && AllCovered(g, gone) && FromEntry(g, p + [b], b) && b < |g.blocks| && |s.env| == |g.nodes|
    requires (forall l :: 0 <= l < |p| ==> p[l] < |g.blocks|) && HeldPass(w, g, FreshAlong(g, p), s.env)
    ensures Run(w, g, {}, prev, b, s, n) == Run(w, g, gone, prev, b, s, n)
    decreases n
  {
    hide Strict, AllCovered, HeldPass, FreshIn, Body;
    StrictValid(g);
    if n > 0 {
      FreshStart(g, FreshAlong(g, p), b);
      BodyPreserved(w, g, gone, p, b, 0, s.env, prev, s);
      match Body(w, g, {}, b, 0, s.env, prev, s)
      case Failed(_, _, _) =>
      case Going(s') =>
        var c := w.next(b, s'.env, s'.mem);
        if 0 <= c < |g.blocks| && c in g.succs[b] {
          var q := p + [b];
          assert q[..|q| - 1] == p;
          assert q + [c as nat] == p + [b, c];
          RunPreserved(w, g, gone, q, b, c, s', n - 1);
        }
    }
  }

  /** Every run of the program from its entry ends the same way without the removed checks: with the same
      first failing check on the same values, or going on in the same state. */
  lemma {:induction false} OutcomePreserved(w: World, g: Graph, gone: set<nat>, s: State, n: nat)
    requires Strict(g) && AllCovered(g, gone) && |s.env| == |g.nodes|
    ensures Run(w, g, {}, 0, 0, s, n) == Run(w, g, gone, 0, 0, s, n)
  {
    hide Run, Strict, AllCovered;
    StrictValid(g);
    assert [] + [0] == [0];
    RunPreserved(w, g, gone, [], 0, 0, s, n);
  }
}
