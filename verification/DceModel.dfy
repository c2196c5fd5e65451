/** Instructions, blocks and runs, as far as removing instructions is concerned. */
module DceModel {
  import opened ControlFlow
  import opened Wrappers

  /** An operation has operands; a phi takes the operand that belongs to the block control came from. */
  datatype Node = Node(effect: bool, phi: bool, inputs: seq<nat>, sources: seq<nat>)

  /** `blocks[b]` lists the instructions of block `b` in order; `home[i]` is the block of instruction `i`. */
  datatype Program = Program(nodes: seq<Node>, blocks: seq<seq<nat>>, home: seq<nat>)

  predicate ValidNode(n: nat, node: Node) {
    && (forall k :: 0 <= k < |node.inputs| ==> node.inputs[k] < n)
    && |node.sources| == (if node.phi then |node.inputs| else 0)
    && (node.phi ==> !node.effect)
  }

  /** Every instruction is in its home block, once. */
  predicate ValidProgram(p: Program) {
    && |p.home| == |p.nodes|
    && (forall i :: 0 <= i < |p.nodes| ==> ValidNode(|p.nodes|, p.nodes[i]))
    && (forall i :: 0 <= i < |p.nodes| ==> p.home[i] < |p.blocks| && i in p.blocks[p.home[i]])
    && (forall b, k :: 0 <= b < |p.blocks| && 0 <= k < |p.blocks[b]| ==>
          p.blocks[b][k] < |p.nodes| && p.home[p.blocks[b][k]] == b)
    && (forall b :: 0 <= b < |p.blocks| ==> NoRepeats(p.blocks[b]))
  }

  /** A chain of operands that starts at an instruction with side effects. */
  predicate IsChain(nodes: seq<Node>, from: nat, c: seq<nat>) {
    && |c| > 0 && c[0] == from && (forall k :: 0 <= k < |c| ==> c[k] < |nodes|)
    && forall k :: 0 <= k < |c| - 1 ==> c[k + 1] in nodes[c[k]].inputs
  }

  ghost predicate Feeds(nodes: seq<Node>, from: nat, i: nat) { exists c :: IsChain(nodes, from, c) && c[|c| - 1] == i }

  /** Some instruction with side effects depends on `i`, or it has side effects itself. */
  ghost predicate Needed(nodes: seq<Node>, i: nat) {
    exists from: nat :: from < |nodes| && nodes[from].effect && Feeds(nodes, from, i)
  }

  /** A set of instructions that may be all that is kept. */
  ghost predicate SafeToKeep(nodes: seq<Node>, keep: set<nat>) {
    && (forall i :: 0 <= i < |nodes| && nodes[i].effect ==> i in keep)
    && (forall i, k :: i in keep && i < |nodes| && 0 <= k < |nodes[i].inputs| ==> nodes[i].inputs[k] in keep)
  }

  lemma FeedsItself(nodes: seq<Node>, i: nat)
    requires i < |nodes|
    ensures Feeds(nodes, i, i)
  {
    assert IsChain(nodes, i, [i]);
  }

  lemma FeedsOperand(nodes: seq<Node>, from: nat, i: nat, j: nat)
    requires Feeds(nodes, from, i) && i < |nodes| && j < |nodes| && j in nodes[i].inputs
    ensures Feeds(nodes, from, j)
  {
    var c :| IsChain(nodes, from, c) && c[|c| - 1] == i;
    assert IsChain(nodes, from, c + [j]);
  }

  lemma FeedsThrough(nodes: seq<Node>, from: nat, i: nat, j: nat)
    requires from < |nodes| && i < |nodes| && i in nodes[from].inputs && Feeds(nodes, i, j)
    ensures Feeds(nodes, from, j)
  {
    var c :| IsChain(nodes, i, c) && c[|c| - 1] == j;
    assert IsChain(nodes, from, [from] + c);
  }

  /** What is needed is in every set that may be kept. */
  lemma {:induction false} NeededIsLeast(nodes: seq<Node>, keep: set<nat>, i: nat)
    requires SafeToKeep(nodes, keep) && Needed(nodes, i)
    ensures i in keep
  {
    var from: nat :| from < |nodes| && nodes[from].effect && Feeds(nodes, from, i);
    var c :| IsChain(nodes, from, c) && c[|c| - 1] == i;
    ChainKept(nodes, keep, from, c, |c| - 1);
  }

  lemma {:induction false} ChainKept(nodes: seq<Node>, keep: set<nat>, from: nat, c: seq<nat>, k: nat)
    requires SafeToKeep(nodes, keep) && IsChain(nodes, from, c) && k < |c| && from in keep
    ensures c[k] in keep
  {
    if k > 0 { ChainKept(nodes, keep, from, c, k - 1); }
  }

  // ----- Runs -----

  /** What a run shows: the instructions with side effects, with the values of their operands. */
  datatype Event = Event(id: nat, operands: seq<int>)


  /** What the instructions do: a pure one computes from its operands; the result of one with side effects,
      and where control goes, may depend on everything that has happened. */
  datatype World = World(pure: (nat, seq<int>) -> int, outcome: seq<Event> -> int, next: (nat, seq<Event>) -> Option<nat>)

  datatype State = State(env: seq<int>, trace: seq<Event>)

  function Operands(env: seq<int>, inputs: seq<nat>): (v: seq<int>)
    requires forall k :: 0 <= k < |inputs| ==> inputs[k] < |env|
    ensures |v| == |inputs| && forall k :: 0 <= k < |v| ==> v[k] == env[inputs[k]]
  {
    seq(|inputs|, k requires 0 <= k < |inputs| => env[inputs[k]])
  }

  /** Position of the operand for control coming from `prev`; the number of operands if there is none. */
  function SourceIndex(sources: seq<nat>, prev: nat): (k: nat)
    ensures k <= |sources|
  {
    if sources == [] || sources[0] == prev then 0 else 1 + SourceIndex(sources[1..], prev)
  }

  /** One phi; other instructions do nothing yet. */
  function Phi(nodes: seq<Node>, i: nat, prev: nat, before: seq<int>, env: seq<int>): (env': seq<int>)
    requires |before| == |env| == |nodes| && i < |nodes| && ValidNode(|nodes|, nodes[i])
    ensures |env'| == |env|
  {
    var node := nodes[i];
    var k := SourceIndex(node.sources, prev);
    if node.phi && k < |node.inputs| then env[i := before[node.inputs[k]]] else env
  }

  /** The phis of a block read the values from before the block. */
  function Phis(nodes: seq<Node>, ids: seq<nat>, prev: nat, before: seq<int>, env: seq<int>): (env': seq<int>)
    requires |before| == |env| == |nodes| && (forall i :: 0 <= i < |nodes| ==> ValidNode(|nodes|, nodes[i]))
    requires forall k :: 0 <= k < |ids| ==> ids[k] < |nodes|
    ensures |env'| == |env|
  {
    if ids == [] then env
    else
      Phis(nodes, ids[1..], prev, before, Phi(nodes, ids[0], prev, before, env))
  }

  function Operation(w: World, nodes: seq<Node>, i: nat, s: State): (s': State)
    requires |s.env| == |nodes| && i < |nodes| && ValidNode(|nodes|, nodes[i])
    ensures |s'.env| == |nodes|
  {
    if nodes[i].phi then s
    else if nodes[i].effect then
      var trace := s.trace + [Event(i, Operands(s.env, nodes[i].inputs))];
      State(s.env[i := w.outcome(trace)], trace)
    else s.(env := s.env[i := w.pure(i, Operands(s.env, nodes[i].inputs))])
  }

  /** The other instructions one after the other. */
  function Body(w: World, nodes: seq<Node>, ids: seq<nat>, s: State): (s': State)
    requires |s.env| == |nodes| && (forall i :: 0 <= i < |nodes| ==> ValidNode(|nodes|, nodes[i]))
    requires forall k :: 0 <= k < |ids| ==> ids[k] < |nodes|
    ensures |s'.env| == |nodes|
  {
    if ids == [] then s else Body(w, nodes, ids[1..], Operation(w, nodes, ids[0], s))
  }

  predicate ValidBlocks(nodes: seq<Node>, blocks: seq<seq<nat>>) {
    && (forall i :: 0 <= i < |nodes| ==> ValidNode(|nodes|, nodes[i]))
    && (forall b, k :: 0 <= b < |blocks| && 0 <= k < |blocks[b]| ==> blocks[b][k] < |nodes|)
  }

  function Block(w: World, nodes: seq<Node>, blocks: seq<seq<nat>>, prev: nat, b: nat, s: State): (s': State)
    requires ValidBlocks(nodes, blocks) && b < |blocks| && |s.env| == |nodes|
    ensures |s'.env| == |nodes|
  {
    Body(w, nodes, blocks[b], s.(env := Phis(nodes, blocks[b], prev, s.env, s.env)))
  }

  /** At most `n` blocks, from block `b` entered from `prev`: the trace. */
  function Run(w: World, nodes: seq<Node>, blocks: seq<seq<nat>>, prev: nat, b: nat, s: State, n: nat): seq<Event>
    requires ValidBlocks(nodes, blocks) && |s.env| == |nodes|
    decreases n
  {
    if n == 0 || b >= |blocks| then s.trace
    else
      var s' := Block(w, nodes, blocks, prev, b, s);
      match w.next(b, s'.trace)
      case None => s'.trace
      case Some(c) => Run(w, nodes, blocks, b, c, s', n - 1)
  }

  // ----- Removing instructions -----

  /** The instructions of a list that are kept. */
  function Filter(ids: seq<nat>, keep: set<nat>): (f: seq<nat>)
    ensures forall i :: i in f <==> i in ids && i in keep
    ensures forall k :: 0 <= k < |f| ==> f[k] in ids
  {
    if ids == [] then []
    else
      assert ids == [ids[0]] + ids[1..];
      (if ids[0] in keep then [ids[0]] else []) + Filter(ids[1..], keep)
  }

  predicate Agree(keep: set<nat>, env: seq<int>, env': seq<int>) {
    |env| == |env'| && forall i :: 0 <= i < |env| && i in keep ==> env[i] == env'[i]
  }

  /** One phi that is kept, or one that is only in the first of two runs. */
  lemma PhiAgrees(nodes: seq<Node>, i: nat, keep: set<nat>, prev: nat,
      before: seq<int>, before': seq<int>, env: seq<int>, env': seq<int>)
    requires |before| == |before'| == |env| == |env'| == |nodes| && i < |nodes| && ValidNode(|nodes|, nodes[i])
    requires SafeToKeep(nodes, keep) && Agree(keep, before, before') && Agree(keep, env, env')
    ensures i in keep ==> Agree(keep, Phi(nodes, i, prev, before, env), Phi(nodes, i, prev, before', env'))
    ensures i !in keep ==> Agree(keep, Phi(nodes, i, prev, before, env), env')
  {
  }

  lemma AgreeSizes(keep: set<nat>, env: seq<int>, env': seq<int>)
    requires Agree(keep, env, env')
    ensures |env| == |env'|
  {
  }

  lemma {:induction false} PhisAgree(nodes: seq<Node>, ids: seq<nat>, keep: set<nat>, prev: nat,
      before: seq<int>, before': seq<int>, env: seq<int>, env': seq<int>)
    requires |before| == |env| == |nodes| && (forall i :: 0 <= i < |nodes| ==> ValidNode(|nodes|, nodes[i]))
    requires forall k :: 0 <= k < |ids| ==> ids[k] < |nodes|
    requires SafeToKeep(nodes, keep) && Agree(keep, before, before') && Agree(keep, env, env')
    ensures Agree(keep, Phis(nodes, ids, prev, before, env), Phis(nodes, Filter(ids, keep), prev, before', env'))
    decreases |ids|
  {
    hide Phi, Agree, SafeToKeep;
    if ids != [] {
      AgreeSizes(keep, before, before');
      AgreeSizes(keep, env, env');
      var e := Phi(nodes, ids[0], prev, before, env);
      PhiAgrees(nodes, ids[0], keep, prev, before, before', env, env');
      if ids[0] in keep {
        assert Filter(ids, keep)[1..] == Filter(ids[1..], keep);
        PhisAgree(nodes, ids[1..], keep, prev, before, before', e, Phi(nodes, ids[0], prev, before', env'));
      } else {
        assert Filter(ids, keep) == Filter(ids[1..], keep);
        PhisAgree(nodes, ids[1..], keep, prev, before, before', e, env');
      }
    }
  }

  lemma OperationAgrees(w: World, nodes: seq<Node>, keep: set<nat>, i: nat, s: State, s': State)
    requires |s.env| == |nodes| && i < |nodes| && ValidNode(|nodes|, nodes[i])
    requires SafeToKeep(nodes, keep) && Agree(keep, s.env, s'.env) && s.trace == s'.trace
    ensures var t := Operation(w, nodes, i, s);
      if i in keep then
        Agree(keep, t.env, Operation(w, nodes, i, s').env) && t.trace == Operation(w, nodes, i, s').trace
      else Agree(keep, t.env, s'.env) && t.trace == s'.trace
  {
    if i in keep {
      assert Operands(s.env, nodes[i].inputs) == Operands(s'.env, nodes[i].inputs);
    }
  }

  lemma {:induction false} BodyAgrees(w: World, nodes: seq<Node>, ids: seq<nat>, keep: set<nat>, s: State, s': State)
    requires |s.env| == |nodes| && (forall i :: 0 <= i < |nodes| ==> ValidNode(|nodes|, nodes[i]))
    requires forall k :: 0 <= k < |ids| ==> ids[k] < |nodes|
    requires SafeToKeep(nodes, keep) && Agree(keep, s.env, s'.env) && s.trace == s'.trace
    ensures var t, t' := Body(w, nodes, ids, s), Body(w, nodes, Filter(ids, keep), s');
      Agree(keep, t.env, t'.env) && t.trace == t'.trace
    decreases |ids|
  {
    hide Operation, Agree, SafeToKeep, ValidNode;
    if ids != [] {
      SameLength(keep, s.env, s'.env);
      OperationAgrees(w, nodes, keep, ids[0], s, s');
      var t := Operation(w, nodes, ids[0], s);
      if ids[0] in keep {
        assert Filter(ids, keep)[1..] == Filter(ids[1..], keep);
        BodyAgrees(w, nodes, ids[1..], keep, t, Operation(w, nodes, ids[0], s'));
      } else {
        assert Filter(ids, keep) == Filter(ids[1..], keep);
        BodyAgrees(w, nodes, ids[1..], keep, t, s');
      }
    } else {
      SameLength(keep, s.env, s'.env);
    }
  }

  lemma SameLength(keep: set<nat>, env: seq<int>, env': seq<int>)
    requires Agree(keep, env, env')
    ensures |env| == |env'|
  {
  }

  /** The blocks with only the kept instructions. */
  predicate Trimmed(blocks: seq<seq<nat>>, keep: set<nat>, blocks': seq<seq<nat>>) {
    |blocks'| == |blocks| && forall b :: 0 <= b < |blocks| ==> blocks'[b] == Filter(blocks[b], keep)
  }

  /** The trimmed program shows the same events with the same operand values, whatever path is taken. */
  lemma {:induction false} RunAgrees(w: World, nodes: seq<Node>, blocks: seq<seq<nat>>, blocks': seq<seq<nat>>, keep: set<nat>,
      prev: nat, b: nat, s: State, s': State, n: nat)
    requires ValidBlocks(nodes, blocks) && ValidBlocks(nodes, blocks') && Trimmed(blocks, keep, blocks')
    requires SafeToKeep(nodes, keep) && |s.env| == |nodes| && Agree(keep, s.env, s'.env) && s.trace == s'.trace
    ensures |s'.env| == |nodes| && Run(w, nodes, blocks, prev, b, s, n) == Run(w, nodes, blocks', prev, b, s', n)
    decreases n
  {
    hide Agree, SafeToKeep, Phis, Body, Filter;
    SameLength(keep, s.env, s'.env);
    if n > 0 && b < |blocks| {
      PhisAgree(nodes, blocks[b], keep, prev, s.env, s'.env, s.env, s'.env);
      var e := Phis(nodes, blocks[b], prev, s.env, s.env);
      var e' := Phis(nodes, blocks'[b], prev, s'.env, s'.env);
      BodyAgrees(w, nodes, blocks[b], keep, s.(env := e), s'.(env := e'));
      var t, t' := Block(w, nodes, blocks, prev, b, s), Block(w, nodes, blocks', prev, b, s');
      match w.next(b, t.trace)
      case None =>
      case Some(c) => RunAgrees(w, nodes, blocks, blocks', keep, b, c, t, t', n - 1);
    }
  }
}
