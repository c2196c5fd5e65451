/** Copying a control-flow graph with its instructions: blocks are copied in depth-first order, instructions get
    ids of their own, and in a second pass inputs are translated. */
module GraphCopy {
  import ControlFlow

  /** `kind` stands for opcode, type and immediates; inputs are instruction ids, sources the blocks a phi's inputs
      come from. */
  datatype Instr = Instr(id: nat, kind: int, inputs: seq<nat>, sources: seq<nat>)

  /** A block's phis, its other instructions and its successors; blocks are numbered from zero. */
  datatype Block = Block(phis: seq<Instr>, insts: seq<Instr>, succs: seq<nat>)

  datatype Graph = Graph(blocks: seq<Block>, first: nat, last: nat)

  type Ids = map<nat, nat>

  function Instrs(b: Block): seq<Instr> { b.phis + b.insts }

  predicate HasId(b: Block, id: nat) { exists i :: 0 <= i < |Instrs(b)| && Instrs(b)[i].id == id }

  predicate DistinctIds(s: seq<Instr>) { forall i, j :: 0 <= i < j < |s| ==> s[i].id != s[j].id }

  /** Successors are blocks and different, ids are used once, inputs and sources are of the graph. */
  ghost predicate ValidGraph(g: Graph) {
    && g.first < |g.blocks| && g.last < |g.blocks|
    && (forall b: nat, s: nat {:trigger s in g.blocks[b].succs} :: b < |g.blocks| && s in g.blocks[b].succs ==> s < |g.blocks|)
    && (forall b :: 0 <= b < |g.blocks| ==> ControlFlow.NoRepeats(g.blocks[b].succs) && DistinctIds(Instrs(g.blocks[b])))
    && (forall b, c, id :: 0 <= b < |g.blocks| && 0 <= c < |g.blocks| && HasId(g.blocks[b], id) && HasId(g.blocks[c], id) ==> b == c)
  }

  ghost predicate InputsInGraph(g: Graph) {
    forall b, i :: 0 <= b < |g.blocks| && 0 <= i < |Instrs(g.blocks[b])| ==> InstrInGraph(g, Instrs(g.blocks[b])[i])
  }

  ghost predicate InstrInGraph(g: Graph, x: Instr) {
    && (forall id :: id in x.inputs ==> exists c :: 0 <= c < |g.blocks| && HasId(g.blocks[c], id))
    && forall s :: s in x.sources ==> s < |g.blocks|
  }

  ghost predicate Path(g: Graph, p: seq<nat>) {
    && |p| > 0 && (forall k :: 0 <= k < |p| ==> p[k] < |g.blocks|)
    && forall k :: 0 <= k < |p| - 1 ==> p[k + 1] in g.blocks[p[k]].succs
  }

  ghost predicate Reachable(g: Graph, b: nat) { exists p :: Path(g, p) && p[0] == g.first && p[|p| - 1] == b }

  // ----- Translation -----

  function MapIds(s: seq<nat>, m: Ids): (r: seq<nat>)
    requires forall x :: x in s ==> x in m
    ensures |r| == |s| && forall i :: 0 <= i < |s| ==> r[i] == m[s[i]]
  {
    seq(|s|, i requires 0 <= i < |s| => m[s[i]])
  }

  predicate Known(s: seq<Instr>, m: Ids) { forall i :: 0 <= i < |s| ==> s[i].id in m }

  /** The copies of some instructions, before their inputs are set. */
  function Bare(s: seq<Instr>, m: Ids): (r: seq<Instr>)
    requires Known(s, m)
    ensures |r| == |s| && forall i :: 0 <= i < |s| ==> r[i] == Instr(m[s[i].id], s[i].kind, [], [])
  {
    seq(|s|, i requires 0 <= i < |s| => Instr(m[s[i].id], s[i].kind, [], []))
  }

  function Reverse<T>(s: seq<T>): (r: seq<T>)
    ensures |r| == |s| && forall i :: 0 <= i < |s| ==> r[i] == s[|s| - 1 - i]
  {
    seq(|s|, i requires 0 <= i < |s| => s[|s| - 1 - i])
  }

  /** An instruction with everything translated. */
  ghost predicate TranslatedInstr(x: Instr, y: Instr, ids: Ids, blockIds: Ids) {
    && x.id in ids && y.id == ids[x.id] && y.kind == x.kind
    && (forall id :: id in x.inputs ==> id in ids) && y.inputs == MapIds(x.inputs, ids)
    && (forall s :: s in x.sources ==> s in blockIds) && y.sources == MapIds(x.sources, blockIds)
  }

  /** A block with everything translated: order kept, but the phis reversed. */
  ghost predicate TranslatedBlock(b: Block, c: Block, ids: Ids, blockIds: Ids) {
    && |c.phis| == |b.phis| && |c.insts| == |b.insts|
    && (forall i :: 0 <= i < |b.phis| ==> TranslatedInstr(b.phis[|b.phis| - 1 - i], c.phis[i], ids, blockIds))
    && (forall i :: 0 <= i < |b.insts| ==> TranslatedInstr(b.insts[i], c.insts[i], ids, blockIds))
    && (forall s :: s in b.succs ==> s in blockIds) && c.succs == MapIds(b.succs, blockIds)
  }

  /** Each key has its own value, and the values are the numbers below `n`. */
  ghost predicate Numbering(m: Ids, n: nat) {
    && (forall x :: x in m ==> m[x] < n)
    && (forall x, y :: x in m && y in m && x != y ==> m[x] != m[y])
    && forall c :: 0 <= c < n ==> Taken(m, c)
  }

  ghost predicate Taken(m: Ids, c: nat) { exists x :: x in m && m[x] == c }

  /** The instruction map and its inverse, which remembers the originals. */
  ghost predicate Inverse(ids: Ids, origs: map<nat, Instr>) {
    && (forall x :: x in ids ==> ids[x] in origs && origs[ids[x]].id == x)
    && forall c :: c in origs ==> origs[c].id in ids && ids[origs[c].id] == c
  }

  // ----- What holds while blocks are copied -----

  /** The blocks visited so far: numbered as their copies are, with bare copies of exactly their instructions. */
  ghost predicate Copying(g: Graph, blocks: seq<Block>, counter: nat, visited: Ids, ids: Ids, origs: map<nat, Instr>) {
    && Numbering(visited, |blocks|) && Inverse(ids, origs)
    && (forall b :: b in visited ==> Reachable(g, b) && b < |g.blocks| && BareBlock(g.blocks[b], blocks[visited[b]], ids, origs))
    && (forall c :: c in origs ==> c < counter)
    && forall id :: id in ids <==> exists b :: b in visited && HasId(g.blocks[b], id)
  }

  ghost predicate BareBlock(b: Block, c: Block, ids: Ids, origs: map<nat, Instr>) {
    && Known(b.phis, ids) && Known(b.insts, ids)
    && c.phis == Reverse(Bare(b.phis, ids)) && c.insts == Bare(b.insts, ids)
    && (forall i :: 0 <= i < |b.phis| ==> ids[b.phis[i].id] in origs && origs[ids[b.phis[i].id]] == b.phis[i])
    && forall i :: 0 <= i < |b.insts| ==> ids[b.insts[i].id] in origs && origs[ids[b.insts[i].id]] == b.insts[i]
  }

  /** The successors of the copy are the copies of the successors. */
  ghost predicate Connected(g: Graph, blocks: seq<Block>, visited: Ids, b: nat) {
    && b < |g.blocks| && b in visited && visited[b] < |blocks|
    && (forall s :: s in g.blocks[b].succs ==> s in visited)
    && blocks[visited[b]].succs == MapIds(g.blocks[b].succs, visited)
  }

  /** More has been copied, and what was there has stayed. */
  ghost predicate Extends(blocks: seq<Block>, visited: Ids, blocks': seq<Block>, visited': Ids) {
    && |blocks| <= |blocks'| && (forall c :: 0 <= c < |blocks| ==> blocks'[c] == blocks[c])
    && forall b :: b in visited ==> b in visited' && visited'[b] == visited[b]
  }

  /** Blocks visited since are fully connected. */
  ghost predicate NewConnected(g: Graph, visited0: Ids, blocks: seq<Block>, visited: Ids) {
    forall b :: b in visited && b !in visited0 ==> Connected(g, blocks, visited, b)
  }

  function Unvisited(g: Graph, visited: Ids): set<nat> { set b: nat | b < |g.blocks| && b !in visited }

  // ----- Copying one block -----

  /** The maps have only grown. */
  ghost predicate MapsGrow(ids: Ids, origs: map<nat, Instr>, ids': Ids, origs': map<nat, Instr>) {
    && (forall x :: x in ids ==> x in ids' && ids'[x] == ids[x])
    && forall c :: c in origs ==> c in origs' && origs'[c] == origs[c]
  }

  /** The first `i` instructions of a block have been copied. */
  ghost predicate PartCopied(all: seq<Instr>, i: nat, ids0: Ids, origs0: map<nat, Instr>, ids: Ids, origs: map<nat, Instr>,
                             counter: nat, made: seq<Instr>) {
    && i <= |all| && Inverse(ids, origs) && (forall c :: c in origs ==> c < counter) && MapsGrow(ids0, origs0, ids, origs)
    && (forall x :: x in ids <==> x in ids0 || exists j :: 0 <= j < i && all[j].id == x)
    && |made| == i && forall j :: 0 <= j < i ==> MadeAt(all[j], made[j], ids, origs)
  }

  /** An instruction has been copied, and its original is remembered. */
  ghost predicate MadeAt(x: Instr, y: Instr, ids: Ids, origs: map<nat, Instr>) {
    x.id in ids && y == Instr(ids[x.id], x.kind, [], []) && y.id in origs && origs[y.id] == x
  }

  lemma PartStarts(all: seq<Instr>, ids: Ids, origs: map<nat, Instr>, counter: nat)
    requires Inverse(ids, origs) && forall c :: c in origs ==> c < counter
    ensures PartCopied(all, 0, ids, origs, ids, origs, counter, [])
  {
  }

  lemma PartStep(all: seq<Instr>, i: nat, ids0: Ids, origs0: map<nat, Instr>, ids: Ids, origs: map<nat, Instr>,
                 counter: nat, made: seq<Instr>)
    requires PartCopied(all, i, ids0, origs0, ids, origs, counter, made) && i < |all| && DistinctIds(all) && all[i].id !in ids0
    ensures all[i].id !in ids && counter !in origs
    ensures PartCopied(all, i + 1, ids0, origs0, ids[all[i].id := counter], origs[counter := all[i]], counter + 1,
                       made + [Instr(counter, all[i].kind, [], [])])
  {
    hide Inverse, MapsGrow, DistinctIds;
    var ids', origs' := ids[all[i].id := counter], origs[counter := all[i]];
    NotYetCopied(all, i, ids0, ids);
    InverseAdds(ids, origs, all[i], counter);
    MapsGrowMore(ids0, origs0, ids, origs, all[i], counter);
    forall x ensures x in ids' <==> x in ids0 || exists j :: 0 <= j < i + 1 && all[j].id == x {
      if x in ids0 || exists j :: 0 <= j < i && all[j].id == x { assert x in ids; }
    }
    var made' := made + [Instr(counter, all[i].kind, [], [])];
    forall j | 0 <= j < i + 1 ensures MadeAt(all[j], made'[j], ids', origs') {
      if j < i { assert MadeAt(all[j], made[j], ids, origs); }
    }
  }

  lemma NotYetCopied(all: seq<Instr>, i: nat, ids0: Ids, ids: Ids)
    requires i < |all| && DistinctIds(all) && all[i].id !in ids0
    requires forall x :: x in ids <==> x in ids0 || exists j :: 0 <= j < i && all[j].id == x
    ensures all[i].id !in ids
  {
  }

  lemma InverseAdds(ids: Ids, origs: map<nat, Instr>, x: Instr, c: nat)
    requires Inverse(ids, origs) && x.id !in ids && c !in origs
    ensures Inverse(ids[x.id := c], origs[c := x])
  {
  }

  lemma MapsGrowMore(ids0: Ids, origs0: map<nat, Instr>, ids: Ids, origs: map<nat, Instr>, x: Instr, c: nat)
    requires MapsGrow(ids0, origs0, ids, origs) && x.id !in ids && c !in origs
    ensures MapsGrow(ids0, origs0, ids[x.id := c], origs[c := x])
  {
  }

  lemma ReverseMore<T>(s: seq<T>, x: T)
    ensures [x] + Reverse(s) == Reverse(s + [x])
  {
  }

  /** All instructions have been copied: the phis first and reversed. */
  lemma BlockMade(b: Block, ids0: Ids, origs0: map<nat, Instr>, ids: Ids, origs: map<nat, Instr>, counter: nat, made: seq<Instr>)
    requires PartCopied(Instrs(b), |Instrs(b)|, ids0, origs0, ids, origs, counter, made)
    ensures BareBlock(b, Block(Reverse(made[..|b.phis|]), made[|b.phis|..], []), ids, origs)
  {
    var all := Instrs(b);
    forall i | 0 <= i < |b.phis| ensures MadeAt(b.phis[i], made[i], ids, origs) { assert all[i] == b.phis[i]; }
    forall i | 0 <= i < |b.insts| ensures MadeAt(b.insts[i], made[|b.phis| + i], ids, origs) { assert all[|b.phis| + i] == b.insts[i]; }
    assert made[..|b.phis|] == Bare(b.phis, ids) && made[|b.phis|..] == Bare(b.insts, ids);
  }

  lemma BareStays(b: Block, c: Block, ids: Ids, origs: map<nat, Instr>, ids': Ids, origs': map<nat, Instr>)
    requires BareBlock(b, c, ids, origs) && MapsGrow(ids, origs, ids', origs')
    ensures BareBlock(b, c, ids', origs')
  {
    assert Bare(b.phis, ids') == Bare(b.phis, ids);
    assert Bare(b.insts, ids') == Bare(b.insts, ids);
  }

  lemma IdsOfBlock(b: Block, id: nat)
    ensures HasId(b, id) <==> exists j :: 0 <= j < |Instrs(b)| && Instrs(b)[j].id == id
  {
  }

  lemma NumberingGrows(m: Ids, n: nat, b: nat)
    requires Numbering(m, n) && b !in m
    ensures Numbering(m[b := n], n + 1)
  {
    var m' := m[b := n];
    forall c | 0 <= c < n + 1 ensures Taken(m', c) {
      if c < n {
        assert Taken(m, c);
        var x :| x in m && m[x] == c;
        assert x in m';
      } else {
        assert b in m';
      }
    }
  }

  /** One more block has been copied. */
  lemma BlockCopied(g: Graph, blocks: seq<Block>, counter: nat, visited: Ids, ids: Ids, origs: map<nat, Instr>,
                    b: nat, made: seq<Instr>, counter': nat, ids': Ids, origs': map<nat, Instr>)
    requires Copying(g, blocks, counter, visited, ids, origs) && b < |g.blocks| && b !in visited && Reachable(g, b)
    requires PartCopied(Instrs(g.blocks[b]), |Instrs(g.blocks[b])|, ids, origs, ids', origs', counter', made)
    ensures var phis := |g.blocks[b].phis|;
      Copying(g, blocks + [Block(Reverse(made[..phis]), made[phis..], [])], counter', visited[b := |blocks|], ids', origs')
  {
    hide Reachable, BareBlock, HasId, Numbering, Inverse;
    var c := Block(Reverse(made[..|g.blocks[b].phis|]), made[|g.blocks[b].phis|..], []);
    var blocks', visited' := blocks + [c], visited[b := |blocks|];
    NumberingBelow(visited, |blocks|);
    NumberingGrows(visited, |blocks|, b);
    BlockMade(g.blocks[b], ids, origs, ids', origs', counter', made);
    forall x | x in visited' ensures BareBlock(g.blocks[x], blocks'[visited'[x]], ids', origs') {
      if x != b { BareStays(g.blocks[x], blocks[visited[x]], ids, origs, ids', origs'); }
    }
    forall id ensures id in ids' <==> exists x :: x in visited' && HasId(g.blocks[x], id) {
      IdsOfBlock(g.blocks[b], id);
      if id in ids {
        var x :| x in visited && HasId(g.blocks[x], id);
        assert x in visited';
      } else if id in ids' {
        assert b in visited' && HasId(g.blocks[b], id);
      }
    }
  }

  lemma NumberingBelow(m: Ids, n: nat)
    requires Numbering(m, n)
    ensures forall x :: x in m ==> m[x] < n
    ensures forall x, y :: x in m && y in m && x != y ==> m[x] != m[y]
  {
  }

  /** A block not visited has no instruction copied. */
  lemma BlockFresh(g: Graph, blocks: seq<Block>, counter: nat, visited: Ids, ids: Ids, origs: map<nat, Instr>, b: nat)
    requires ValidGraph(g) && Copying(g, blocks, counter, visited, ids, origs) && b < |g.blocks| && b !in visited
    ensures forall j :: 0 <= j < |Instrs(g.blocks[b])| ==> Instrs(g.blocks[b])[j].id !in ids
    ensures DistinctIds(Instrs(g.blocks[b])) && Inverse(ids, origs) && forall c :: c in origs ==> c < counter
  {
    hide Reachable, BareBlock, Numbering, Inverse;
    forall j | 0 <= j < |Instrs(g.blocks[b])| ensures Instrs(g.blocks[b])[j].id !in ids {
      assert HasId(g.blocks[b], Instrs(g.blocks[b])[j].id);
    }
  }

  // ----- Connecting -----

  lemma BareAnySuccs(b: Block, c: Block, ids: Ids, origs: map<nat, Instr>, succs: seq<nat>)
    requires BareBlock(b, c, ids, origs)
    ensures BareBlock(b, c.(succs := succs), ids, origs)
  {
  }

  lemma CopyingConnect(g: Graph, blocks: seq<Block>, counter: nat, visited: Ids, ids: Ids, origs: map<nat, Instr>, c: nat, succs: seq<nat>)
    requires Copying(g, blocks, counter, visited, ids, origs) && c < |blocks|
    ensures Copying(g, blocks[c := blocks[c].(succs := succs)], counter, visited, ids, origs)
  {
    hide Reachable, BareBlock, HasId, Inverse;
    NumberingBelow(visited, |blocks|);
    var blocks' := blocks[c := blocks[c].(succs := succs)];
    forall x | x in visited ensures BareBlock(g.blocks[x], blocks'[visited[x]], ids, origs) {
      BareAnySuccs(g.blocks[x], blocks[visited[x]], ids, origs, succs);
    }
  }

  lemma ConnectedStays(g: Graph, blocks: seq<Block>, visited: Ids, blocks': seq<Block>, visited': Ids, b: nat)
    requires Connected(g, blocks, visited, b) && Extends(blocks, visited, blocks', visited')
    ensures Connected(g, blocks', visited', b)
  {
    assert MapIds(g.blocks[b].succs, visited') == MapIds(g.blocks[b].succs, visited);
  }

  /** The first `j` successors of `b` have been connected; everything else visited since is complete. */
  ghost predicate PartConnected(g: Graph, blocks0: seq<Block>, visited0: Ids, blocks: seq<Block>, visited: Ids, b: nat, j: nat) {
    && b < |g.blocks| && b in visited && b !in visited0 && visited[b] == |blocks0| < |blocks| && j <= |g.blocks[b].succs|
    && (forall c :: 0 <= c < |blocks0| ==> blocks[c] == blocks0[c])
    && (forall x :: x in visited0 ==> x in visited && visited[x] == visited0[x])
    && (forall x :: x in visited && x !in visited0 && x != b ==> Connected(g, blocks, visited, x))
    && (forall s :: s in g.blocks[b].succs[..j] ==> s in visited)
    && blocks[|blocks0|].succs == MapIds(g.blocks[b].succs[..j], visited)
  }

  lemma PartConnectedStarts(g: Graph, blocks: seq<Block>, visited: Ids, b: nat, c: Block)
    requires b < |g.blocks| && b !in visited && c.succs == []
    ensures PartConnected(g, blocks, visited, blocks + [c], visited[b := |blocks|], b, 0)
  {
    hide Connected;
  }

  /** After a search below a successor. */
  lemma PartConnectedChild(g: Graph, blocks0: seq<Block>, visited0: Ids, blocks: seq<Block>, visited: Ids, b: nat, j: nat,
                           blocks': seq<Block>, visited': Ids)
    requires PartConnected(g, blocks0, visited0, blocks, visited, b, j)
    requires Extends(blocks, visited, blocks', visited') && NewConnected(g, visited, blocks', visited')
    ensures PartConnected(g, blocks0, visited0, blocks', visited', b, j)
  {
    hide Connected;
    forall x | x in visited' && x !in visited0 && x != b ensures Connected(g, blocks', visited', x) {
      if x in visited { ConnectedStays(g, blocks, visited, blocks', visited', x); }
    }
    assert MapIds(g.blocks[b].succs[..j], visited') == MapIds(g.blocks[b].succs[..j], visited);
  }

  /** One more edge. */
  lemma PartConnectedStep(g: Graph, blocks0: seq<Block>, visited0: Ids, blocks: seq<Block>, visited: Ids, b: nat, j: nat)
    requires PartConnected(g, blocks0, visited0, blocks, visited, b, j) && j < |g.blocks[b].succs| && g.blocks[b].succs[j] in visited
    requires Numbering(visited, |blocks|) && ControlFlow.NoRepeats(g.blocks[b].succs)
    ensures var c := |blocks0|; var t := visited[g.blocks[b].succs[j]];
      t !in blocks[c].succs
      && PartConnected(g, blocks0, visited0, blocks[c := blocks[c].(succs := blocks[c].succs + [t])], visited, b, j + 1)
  {
    hide Connected, Numbering;
    NumberingBelow(visited, |blocks|);
    var c, s := |blocks0|, g.blocks[b].succs[j];
    var blocks' := blocks[c := blocks[c].(succs := blocks[c].succs + [visited[s]])];
    assert g.blocks[b].succs[..j + 1] == g.blocks[b].succs[..j] + [s];
    assert MapIds(g.blocks[b].succs[..j + 1], visited) == MapIds(g.blocks[b].succs[..j], visited) + [visited[s]];
    forall x | x in visited && x !in visited0 && x != b ensures Connected(g, blocks', visited, x) {
      ConnectedElsewhere(g, blocks, visited, x, c, blocks'[c]);
    }
    NotYetConnected(g.blocks[b].succs, j, visited);
  }

  lemma NotYetConnected(succs: seq<nat>, j: nat, visited: Ids)
    requires j < |succs| && ControlFlow.NoRepeats(succs) && succs[j] in visited && forall s :: s in succs[..j] ==> s in visited
    requires forall x, y :: x in visited && y in visited && x != y ==> visited[x] != visited[y]
    ensures visited[succs[j]] !in MapIds(succs[..j], visited)
  {
  }

  lemma ConnectedElsewhere(g: Graph, blocks: seq<Block>, visited: Ids, x: nat, c: nat, now: Block)
    requires Connected(g, blocks, visited, x) && c < |blocks| && visited[x] != c
    ensures Connected(g, blocks[c := now], visited, x)
  {
  }

  lemma AllSuccsConnected(g: Graph, blocks0: seq<Block>, visited0: Ids, blocks: seq<Block>, visited: Ids, b: nat)
    requires b < |g.blocks| && PartConnected(g, blocks0, visited0, blocks, visited, b, |g.blocks[b].succs|)
    ensures Extends(blocks0, visited0, blocks, visited) && NewConnected(g, visited0, blocks, visited)
  {
    assert g.blocks[b].succs[..|g.blocks[b].succs|] == g.blocks[b].succs;
  }

  lemma SuccReachable(g: Graph, b: nat, s: nat)
    requires ValidGraph(g) && Reachable(g, b) && b < |g.blocks| && s in g.blocks[b].succs
    ensures s < |g.blocks| && Reachable(g, s)
  {
    var p :| Path(g, p) && p[0] == g.first && p[|p| - 1] == b;
    var q := p + [s];
    forall k | 0 <= k < |q| - 1 ensures q[k + 1] in g.blocks[q[k]].succs {
      if k + 1 < |p| { assert q[k] == p[k] && q[k + 1] == p[k + 1]; }
    }
    assert Path(g, q);
  }
}
