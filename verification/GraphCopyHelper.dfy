/** The copy as it runs, and the isomorphism it ends in. */
module GraphCopyHelper {
  import ControlFlow
  import opened GraphCopy

  // ----- Reaching everything -----

  ghost predicate AllReachable(g: Graph) { forall b :: 0 <= b < |g.blocks| ==> Reachable(g, b) }

  /** All visited blocks are connected, and the first block has been visited. */
  ghost predicate Closed(g: Graph, blocks: seq<Block>, visited: Ids) {
    g.first in visited && forall b :: b in visited ==> Connected(g, blocks, visited, b)
  }

  lemma {:induction false} PathVisited(g: Graph, blocks: seq<Block>, visited: Ids, p: seq<nat>, k: nat)
    requires Closed(g, blocks, visited) && Path(g, p) && p[0] == g.first && k < |p|
    ensures p[k] in visited
  {
    if k > 0 {
      PathVisited(g, blocks, visited, p, k - 1);
      assert p[k - 1 + 1] in g.blocks[p[k - 1]].succs;
      assert Connected(g, blocks, visited, p[k - 1]);
    }
  }

  lemma {:induction false} NumberingSize(m: Ids, n: nat)
    requires Numbering(m, n)
    ensures |m| == n
  {
    assert |m| == |m.Keys|;
    if n == 0 {
      assert forall x :: x !in m;
      assert m.Keys == {};
    } else {
      assert Taken(m, n - 1);
      var x :| x in m && m[x] == n - 1;
      var m' := m - {x};
      forall c | 0 <= c < n - 1 ensures Taken(m', c) {
        assert Taken(m, c);
        var y :| y in m && m[y] == c;
        assert y in m';
      }
      NumberingSize(m', n - 1);
      assert m'.Keys == m.Keys - {x} && |m'| == |m'.Keys|;
    }
  }

  function Upto(n: nat): (r: set<nat>)
    ensures |r| == n && forall x: nat :: x in r <==> x < n
  {
    if n == 0 then {} else Upto(n - 1) + {n - 1}
  }

  /** As many copies as blocks exactly when every block can be reached; then every block has its copy. */
  lemma CountsAgreeIff(g: Graph, blocks: seq<Block>, counter: nat, visited: Ids, ids: Ids, origs: map<nat, Instr>)
    requires Copying(g, blocks, counter, visited, ids, origs) && Closed(g, blocks, visited)
    ensures |blocks| == |g.blocks| <==> AllReachable(g)
    ensures AllReachable(g) ==> forall b :: 0 <= b < |g.blocks| ==> b in visited
  {
    hide Numbering, Inverse, BareBlock, HasId, Connected;
    NumberingSize(visited, |blocks|);
    var all := Upto(|g.blocks|);
    assert |visited| == |visited.Keys| && visited.Keys <= all;
    if AllReachable(g) {
      forall b | 0 <= b < |g.blocks| ensures b in visited {
        assert Reachable(g, b);
        var p :| Path(g, p) && p[0] == g.first && p[|p| - 1] == b;
        PathVisited(g, blocks, visited, p, |p| - 1);
      }
      assert visited.Keys == all;
    }
    if |blocks| == |g.blocks| {
      SameSize(visited.Keys, all);
      forall b | 0 <= b < |g.blocks| ensures Reachable(g, b) { assert b in all; }
    }
  }

  lemma SameSize(a: set<nat>, b: set<nat>)
    requires a <= b && |a| == |b|
    ensures a == b
  {
    assert b == a + (b - a);
  }

  // ----- The second pass -----

  /** A bare copy with its inputs set from the original. */
  ghost predicate FixedInstr(y: Instr, z: Instr, ids: Ids, origs: map<nat, Instr>, visited: Ids) {
    && y.id in origs && z.id == y.id && z.kind == y.kind
    && (forall id :: id in origs[y.id].inputs ==> id in ids) && z.inputs == MapIds(origs[y.id].inputs, ids)
    && (forall s :: s in origs[y.id].sources ==> s in visited) && z.sources == MapIds(origs[y.id].sources, visited)
  }

  ghost predicate FixedAll(ys: seq<Instr>, zs: seq<Instr>, ids: Ids, origs: map<nat, Instr>, visited: Ids) {
    |zs| == |ys| && forall i :: 0 <= i < |ys| ==> FixedInstr(ys[i], zs[i], ids, origs, visited)
  }

  ghost predicate FixedBlock(b: Block, c: Block, ids: Ids, origs: map<nat, Instr>, visited: Ids) {
    c.succs == b.succs && FixedAll(b.phis, c.phis, ids, origs, visited) && FixedAll(b.insts, c.insts, ids, origs, visited)
  }

  /** A bare copy whose original is remembered, with inputs that can be translated. */
  ghost predicate Fixable(y: Instr, ids: Ids, origs: map<nat, Instr>, visited: Ids) {
    && y.id in origs && y.inputs == [] && y.sources == []
    && (forall id :: id in origs[y.id].inputs ==> id in ids) && forall s :: s in origs[y.id].sources ==> s in visited
  }

  lemma InputsKnown(g: Graph, blocks: seq<Block>, counter: nat, visited: Ids, ids: Ids, origs: map<nat, Instr>, x: Instr)
    requires Copying(g, blocks, counter, visited, ids, origs) && InstrInGraph(g, x)
    requires forall b :: 0 <= b < |g.blocks| ==> b in visited
    ensures (forall id :: id in x.inputs ==> id in ids) && forall s :: s in x.sources ==> s in visited
  {
    hide Numbering, Inverse, BareBlock, HasId, Reachable;
    forall id | id in x.inputs ensures id in ids {
      var c :| 0 <= c < |g.blocks| && HasId(g.blocks[c], id);
      assert c in visited;
    }
  }

  /** Everything in the copy of a block can be fixed. */
  lemma BlockFixable(g: Graph, blocks: seq<Block>, counter: nat, visited: Ids, ids: Ids, origs: map<nat, Instr>, b: nat)
    requires Copying(g, blocks, counter, visited, ids, origs) && InputsInGraph(g) && b < |g.blocks|
    requires forall b :: 0 <= b < |g.blocks| ==> b in visited
    ensures b in visited && visited[b] < |blocks|
    ensures var c := blocks[visited[b]];
      && (forall i :: 0 <= i < |c.phis| ==> Fixable(c.phis[i], ids, origs, visited))
      && forall i :: 0 <= i < |c.insts| ==> Fixable(c.insts[i], ids, origs, visited)
  {
    hide Inverse, HasId, Reachable, InstrInGraph, Copying;
    BareCopy(g, blocks, counter, visited, ids, origs, b);
    var src, c := g.blocks[b], blocks[visited[b]];
    forall i | 0 <= i < |c.phis| ensures Fixable(c.phis[i], ids, origs, visited) {
      var x := src.phis[|src.phis| - 1 - i];
      assert x == Instrs(src)[|src.phis| - 1 - i];
      InputsKnown(g, blocks, counter, visited, ids, origs, x);
    }
    forall i | 0 <= i < |c.insts| ensures Fixable(c.insts[i], ids, origs, visited) {
      var x := src.insts[i];
      assert x == Instrs(src)[|src.phis| + i];
      InputsKnown(g, blocks, counter, visited, ids, origs, x);
    }
  }

  lemma BareCopy(g: Graph, blocks: seq<Block>, counter: nat, visited: Ids, ids: Ids, origs: map<nat, Instr>, b: nat)
    requires Copying(g, blocks, counter, visited, ids, origs) && b in visited
    ensures b < |g.blocks| && visited[b] < |blocks| && BareBlock(g.blocks[b], blocks[visited[b]], ids, origs)
  {
    hide Inverse, HasId, Reachable, BareBlock;
  }

  /** A fixed bare copy is the block translated. */
  lemma FixedIsTranslated(b: Block, c: Block, d: Block, ids: Ids, origs: map<nat, Instr>, visited: Ids)
    requires BareBlock(b, c, ids, origs) && FixedBlock(c, d, ids, origs, visited)
    requires (forall s :: s in b.succs ==> s in visited) && c.succs == MapIds(b.succs, visited)
    ensures TranslatedBlock(b, d, ids, visited)
  {
    forall i | 0 <= i < |b.phis| ensures TranslatedInstr(b.phis[|b.phis| - 1 - i], d.phis[i], ids, visited) {
      assert FixedInstr(c.phis[i], d.phis[i], ids, origs, visited);
    }
    forall i | 0 <= i < |b.insts| ensures TranslatedInstr(b.insts[i], d.insts[i], ids, visited) {
      assert FixedInstr(c.insts[i], d.insts[i], ids, origs, visited);
    }
  }

  /** The copy is the graph over again: blocks and instructions correspond one to one, and everything is translated. */
  ghost predicate IsCopy(g: Graph, copy: Graph, ids: Ids, visited: Ids) {
    && |copy.blocks| == |g.blocks| && Numbering(visited, |g.blocks|)
    && (forall x, y :: x in ids && y in ids && x != y ==> ids[x] != ids[y])
    && (forall b :: 0 <= b < |g.blocks| ==> b in visited && visited[b] < |copy.blocks| && TranslatedBlock(g.blocks[b], copy.blocks[visited[b]], ids, visited))
    && g.first in visited && copy.first == visited[g.first] && g.last in visited && copy.last == visited[g.last]
  }

  lemma IdsApart(ids: Ids, origs: map<nat, Instr>)
    requires Inverse(ids, origs)
    ensures forall x, y :: x in ids && y in ids && x != y ==> ids[x] != ids[y]
  {
  }

  class GraphCopyHelper {
    const source: Graph
    /** The target: its blocks, its first and last block, and the next instruction id. */
    var blocks: seq<Block>
    var first: nat
    var last: nat
    var nextId: nat
    var visited: Ids
    var origToCopy: Ids
    var copyToOrig: map<nat, Instr>

    constructor (source: Graph, nextId: nat)
      requires ValidGraph(source)
      ensures this.source == source && Valid() && blocks == [] && visited == map[]
    {
      this.source, this.nextId := source, nextId;
      blocks, first, last := [], 0, 0;
      visited, origToCopy, copyToOrig := map[], map[], map[];
    }

    ghost predicate Valid()
      reads this
    {
      && ValidGraph(source) && Copying(source, blocks, nextId, visited, origToCopy, copyToOrig)
      && (source.first in visited ==> first == visited[source.first])
      && (source.last in visited ==> last == visited[source.last])
    }

    /** Instruction by instruction; phis are pushed to the front. */
    method CopyBlock(b: nat)
      requires Valid() && b < |source.blocks| && b !in visited && Reachable(source, b)
      modifies this`blocks, this`nextId, this`origToCopy, this`copyToOrig
      ensures ValidGraph(source) && |blocks| == |old(blocks)| + 1 && blocks[..|old(blocks)|] == old(blocks)
      ensures blocks[|old(blocks)|].succs == []
      ensures Copying(source, blocks, nextId, visited[b := |old(blocks)|], origToCopy, copyToOrig)
    {
      hide ValidGraph, Copying, Reachable, PartCopied;
      var src := source.blocks[b];
      var all := Instrs(src);
      ghost var ids0, origs0, counter0 := origToCopy, copyToOrig, nextId;
      BlockFresh(source, blocks, nextId, visited, origToCopy, copyToOrig, b);
      PartStarts(all, origToCopy, copyToOrig, nextId);
      var phis, insts: seq<Instr> := [], [];
      ghost var made: seq<Instr> := [];
      var i := 0;
      while i < |all|
        invariant 0 <= i <= |all| == |src.phis| + |src.insts| && |made| == i && blocks == old(blocks)
        invariant PartCopied(all, i, ids0, origs0, origToCopy, copyToOrig, nextId, made)
        invariant i <= |src.phis| ==> phis == Reverse(made) && insts == []
        invariant i > |src.phis| ==> phis == Reverse(made[..|src.phis|]) && insts == made[|src.phis|..]
      {
        PartStep(all, i, ids0, origs0, origToCopy, copyToOrig, nextId, made);
        var copy := Instr(nextId, all[i].kind, [], []);
        ReverseMore(made, copy);
        if i < |src.phis| {
          phis := [copy] + phis;
        } else {
          assert i == |src.phis| ==> made[..i] == made;
          assert (made + [copy])[..|src.phis|] == made[..|src.phis|];
          insts := insts + [copy];
        }
        made := made + [copy];
        origToCopy := origToCopy[all[i].id := nextId];
        copyToOrig := copyToOrig[nextId := all[i]];
        nextId := nextId + 1;
        i := i + 1;
      }
      assert made[..|made|] == made;
      BlockCopied(source, blocks, counter0, visited, ids0, origs0, b, made, nextId, origToCopy, copyToOrig);
      blocks := blocks + [Block(phis, insts, [])];
    }

    /** The bare copy of a block, found and not yet connected. */
    method StartBlock(b: nat)
      requires Valid() && b < |source.blocks| && b !in visited && Reachable(source, b)
      modifies this
      ensures Valid() && visited == old(visited)[b := |old(blocks)|] && Unvisited(source, visited) < Unvisited(source, old(visited))
      ensures PartConnected(source, old(blocks), old(visited), blocks, visited, b, 0)
    {
      hide ValidGraph, Copying, Reachable, PartConnected, Unvisited;
      ghost var blocks0, visited0 := blocks, visited;
      Below(source, blocks, nextId, visited, origToCopy, copyToOrig);
      CopyBlock(b);
      assert blocks == blocks0 + [blocks[|blocks0|]];
      var copy := |blocks| - 1;
      if b == source.first { first := copy; }
      if b == source.last { last := copy; }
      visited := visited[b := copy];
      PartConnectedStarts(source, blocks0, visited0, b, blocks[copy]);
      FewerUnvisited(source, visited0, visited, b);
    }

    /** The edge to the copy of one more successor. */
    method ConnectSucc(b: nat, copy: nat, succ: nat, ghost blocks0: seq<Block>, ghost visited0: Ids, ghost j: nat)
      requires Valid() && b < |source.blocks| && j < |source.blocks[b].succs| && succ == source.blocks[b].succs[j]
      requires succ in visited && ControlFlow.NoRepeats(source.blocks[b].succs) && copy == |blocks0|
      requires PartConnected(source, blocks0, visited0, blocks, visited, b, j)
      modifies this`blocks
      ensures Valid() && PartConnected(source, blocks0, visited0, blocks, visited, b, j + 1)
    {
      hide ValidGraph, Copying, PartConnected;
      Below(source, blocks, nextId, visited, origToCopy, copyToOrig);
      PartConnectedStep(source, blocks0, visited0, blocks, visited, b, j);
      PartPlace(source, blocks0, visited0, blocks, visited, b, j);
      CopyingConnect(source, blocks, nextId, visited, origToCopy, copyToOrig, copy, blocks[copy].succs + [visited[succ]]);
      blocks := blocks[copy := blocks[copy].(succs := blocks[copy].succs + [visited[succ]])];
    }

    /** The copy of `b` and of everything found from it. */
    method DfoCopy(b: nat)
      requires Valid() && b < |source.blocks| && b !in visited && Reachable(source, b)
      modifies this
      ensures Valid() && b in visited && Extends(old(blocks), old(visited), blocks, visited)
      ensures NewConnected(source, old(visited), blocks, visited)
      decreases Unvisited(source, visited)
    {
      hide ValidGraph, Copying, Reachable, PartConnected, NewConnected, Unvisited, Extends;
      ghost var blocks0, visited0 := blocks, visited;
      StartBlock(b);
      var copy := visited[b];
      SuccsDistinct(source, b);
      var succs := source.blocks[b].succs;
      var j := 0;
      while j < |succs|
        invariant 0 <= j <= |succs| && Valid() && PartConnected(source, blocks0, visited0, blocks, visited, b, j)
        invariant Unvisited(source, visited) < Unvisited(source, visited0)
      {
        var succ := succs[j];
        SuccReachable(source, b, succ);
        if succ !in visited {
          ghost var blocks1, visited1 := blocks, visited;
          DfoCopy(succ);
          PartConnectedChild(source, blocks0, visited0, blocks1, visited1, b, j, blocks, visited);
          UnvisitedShrinks(source, blocks1, visited1, blocks, visited);
        }
        ConnectSucc(b, copy, succ, blocks0, visited0, j);
        j := j + 1;
      }
      PartPlace(source, blocks0, visited0, blocks, visited, b, j);
      AllSuccsConnected(source, blocks0, visited0, blocks, visited, b);
    }

    /** Inputs of one instruction, one after the other. */
    method FixInstr(y: Instr) returns (z: Instr)
      requires Fixable(y, origToCopy, copyToOrig, visited)
      ensures FixedInstr(y, z, origToCopy, copyToOrig, visited)
    {
      var orig := copyToOrig[y.id];
      var inputs, sources := y.inputs, y.sources;
      var i := 0;
      while i < |orig.inputs|
        invariant 0 <= i <= |orig.inputs| == |MapIds(orig.inputs, origToCopy)| && inputs == MapIds(orig.inputs, origToCopy)[..i]
      {
        inputs := inputs + [origToCopy[orig.inputs[i]]];
        i := i + 1;
      }
      i := 0;
      while i < |orig.sources|
        invariant 0 <= i <= |orig.sources| == |MapIds(orig.sources, visited)| && sources == MapIds(orig.sources, visited)[..i]
      {
        sources := sources + [visited[orig.sources[i]]];
        i := i + 1;
      }
      z := Instr(y.id, y.kind, inputs, sources);
    }

    method FixAll(ys: seq<Instr>) returns (zs: seq<Instr>)
      requires forall i :: 0 <= i < |ys| ==> Fixable(ys[i], origToCopy, copyToOrig, visited)
      ensures FixedAll(ys, zs, origToCopy, copyToOrig, visited)
    {
      hide Fixable, FixedInstr;
      zs := [];
      var i := 0;
      while i < |ys|
        invariant 0 <= i <= |ys| && |zs| == i
        invariant forall j :: 0 <= j < i ==> FixedInstr(ys[j], zs[j], origToCopy, copyToOrig, visited)
      {
        var z := FixInstr(ys[i]);
        zs := zs + [z];
        i := i + 1;
      }
    }

    /** All inputs of all copies. */
    method FixDFG()
      requires forall c, i :: 0 <= c < |blocks| && 0 <= i < |blocks[c].phis| ==> Fixable(blocks[c].phis[i], origToCopy, copyToOrig, visited)
      requires forall c, i :: 0 <= c < |blocks| && 0 <= i < |blocks[c].insts| ==> Fixable(blocks[c].insts[i], origToCopy, copyToOrig, visited)
      modifies this`blocks
      ensures |blocks| == |old(blocks)|
      ensures forall c :: 0 <= c < |blocks| ==> FixedBlock(old(blocks)[c], blocks[c], origToCopy, copyToOrig, visited)
    {
      hide Fixable, FixedAll;
      ghost var before := blocks;
      var c := 0;
      while c < |blocks|
        invariant 0 <= c <= |blocks| == |before|
        invariant forall d :: c <= d < |blocks| ==> blocks[d] == before[d]
        invariant forall d :: 0 <= d < c ==> FixedBlock(before[d], blocks[d], origToCopy, copyToOrig, visited)
      {
        var phis := FixAll(blocks[c].phis);
        var insts := FixAll(blocks[c].insts);
        blocks := blocks[c := Block(phis, insts, blocks[c].succs)];
        c := c + 1;
      }
    }

    /** The copy of a graph. The original checks that all blocks were copied: they were exactly when all can be
        reached, and then the copy is an isomorphic graph. */
    method CreateCopy() returns (ok: bool, copy: Graph)
      requires Valid() && blocks == [] && visited == map[] && InputsInGraph(source)
      modifies this
      ensures ok <==> AllReachable(source)
      ensures ok ==> IsCopy(source, copy, origToCopy, visited)
    {
      hide ValidGraph, Copying, Reachable, NewConnected, Extends, Fixable, FixedBlock, AllReachable, InputsInGraph, TranslatedBlock;
      FirstReachable(source);
      DfoCopy(source.first);
      StartConnected(source, blocks, visited);
      CountsAgreeIff(source, blocks, nextId, visited, origToCopy, copyToOrig);
      copy := Graph(blocks, first, last);
      ok := |blocks| == |source.blocks|;
      if !ok { return; }
      ghost var bare := blocks;
      CopiesFixable(source, blocks, nextId, visited, origToCopy, copyToOrig);
      FixDFG();
      copy := Graph(blocks, first, last);
      CopyRight(source, bare, nextId, visited, origToCopy, copyToOrig, copy);
    }
  }

  lemma Below(g: Graph, blocks: seq<Block>, counter: nat, visited: Ids, ids: Ids, origs: map<nat, Instr>)
    requires Copying(g, blocks, counter, visited, ids, origs)
    ensures Numbering(visited, |blocks|) && forall b :: b in visited ==> b < |g.blocks| && visited[b] < |blocks|
  {
    hide Inverse, HasId, Reachable, BareBlock;
  }

  lemma SuccsDistinct(g: Graph, b: nat)
    requires ValidGraph(g) && b < |g.blocks|
    ensures ControlFlow.NoRepeats(g.blocks[b].succs)
  {
  }

  lemma FewerUnvisited(g: Graph, visited: Ids, visited': Ids, b: nat)
    requires b < |g.blocks| && b !in visited && visited'.Keys == visited.Keys + {b}
    ensures Unvisited(g, visited') < Unvisited(g, visited)
  {
    assert b in Unvisited(g, visited) && b !in Unvisited(g, visited');
  }

  lemma UnvisitedShrinks(g: Graph, blocks: seq<Block>, visited: Ids, blocks': seq<Block>, visited': Ids)
    requires Extends(blocks, visited, blocks', visited')
    ensures Unvisited(g, visited') <= Unvisited(g, visited)
  {
  }

  lemma PartPlace(g: Graph, blocks0: seq<Block>, visited0: Ids, blocks: seq<Block>, visited: Ids, b: nat, j: nat)
    requires PartConnected(g, blocks0, visited0, blocks, visited, b, j)
    ensures b in visited && visited[b] == |blocks0| < |blocks|
  {
    hide Connected;
  }

  lemma FirstReachable(g: Graph)
    requires ValidGraph(g)
    ensures g.first < |g.blocks| && g.last < |g.blocks| && Reachable(g, g.first)
  {
    assert Path(g, [g.first]);
  }

  lemma StartConnected(g: Graph, blocks: seq<Block>, visited: Ids)
    requires NewConnected(g, map[], blocks, visited) && g.first in visited
    ensures Closed(g, blocks, visited)
  {
    hide Connected;
  }

  lemma CopiesFixable(g: Graph, blocks: seq<Block>, counter: nat, visited: Ids, ids: Ids, origs: map<nat, Instr>)
    requires Copying(g, blocks, counter, visited, ids, origs) && InputsInGraph(g)
    requires forall b :: 0 <= b < |g.blocks| ==> b in visited
    ensures forall c, i :: 0 <= c < |blocks| && 0 <= i < |blocks[c].phis| ==> Fixable(blocks[c].phis[i], ids, origs, visited)
    ensures forall c, i :: 0 <= c < |blocks| && 0 <= i < |blocks[c].insts| ==> Fixable(blocks[c].insts[i], ids, origs, visited)
  {
    hide Copying, Fixable, InputsInGraph;
    Below(g, blocks, counter, visited, ids, origs);
    forall c | 0 <= c < |blocks|
      ensures forall i :: 0 <= i < |blocks[c].phis| ==> Fixable(blocks[c].phis[i], ids, origs, visited)
      ensures forall i :: 0 <= i < |blocks[c].insts| ==> Fixable(blocks[c].insts[i], ids, origs, visited)
    {
      assert Taken(visited, c);
      var b :| b in visited && visited[b] == c;
      BlockFixable(g, blocks, counter, visited, ids, origs, b);
    }
  }

  lemma CopyRight(g: Graph, bare: seq<Block>, counter: nat, visited: Ids, ids: Ids, origs: map<nat, Instr>, copy: Graph)
    requires ValidGraph(g) && Copying(g, bare, counter, visited, ids, origs) && Closed(g, bare, visited)
    requires |copy.blocks| == |bare| == |g.blocks| && forall b :: 0 <= b < |g.blocks| ==> b in visited
    requires forall c :: 0 <= c < |bare| ==> FixedBlock(bare[c], copy.blocks[c], ids, origs, visited)
    requires (g.first in visited ==> copy.first == visited[g.first]) && (g.last in visited ==> copy.last == visited[g.last])
    ensures IsCopy(g, copy, ids, visited)
  {
    hide Copying, ValidGraph, FixedBlock, TranslatedBlock, Numbering, BareBlock, Connected, Inverse;
    FirstReachable(g);
    Below(g, bare, counter, visited, ids, origs);
    InverseOf(g, bare, counter, visited, ids, origs);
    IdsApart(ids, origs);
    forall b | 0 <= b < |g.blocks|
      ensures b in visited && visited[b] < |copy.blocks| && TranslatedBlock(g.blocks[b], copy.blocks[visited[b]], ids, visited)
    {
      BareCopy(g, bare, counter, visited, ids, origs, b);
      SuccsCopied(g, bare, visited, b);
      FixedIsTranslated(g.blocks[b], bare[visited[b]], copy.blocks[visited[b]], ids, origs, visited);
    }
  }

  lemma SuccsCopied(g: Graph, blocks: seq<Block>, visited: Ids, b: nat)
    requires Closed(g, blocks, visited) && b in visited
    ensures b < |g.blocks| && visited[b] < |blocks| && (forall s :: s in g.blocks[b].succs ==> s in visited)
    ensures blocks[visited[b]].succs == MapIds(g.blocks[b].succs, visited)
  {
    assert Connected(g, blocks, visited, b);
  }

  lemma InverseOf(g: Graph, blocks: seq<Block>, counter: nat, visited: Ids, ids: Ids, origs: map<nat, Instr>)
    requires Copying(g, blocks, counter, visited, ids, origs)
    ensures Inverse(ids, origs)
  {
    hide HasId, Reachable, BareBlock, Numbering;
  }
}
