/** Dead code elimination as it runs: mark from the instructions with side effects, collect the rest, unlink. */
module DcePass {
  import opened ControlFlow
  import opened DceModel

  ghost function NeededSet(nodes: seq<Node>): set<nat> { set i: nat | i < |nodes| && Needed(nodes, i) }

  /** The needed instructions may be kept alone, and no smaller set may. */
  lemma NeededIsSafe(nodes: seq<Node>)
    requires forall i :: 0 <= i < |nodes| ==> ValidNode(|nodes|, nodes[i])
    ensures SafeToKeep(nodes, NeededSet(nodes))
    ensures forall keep: set<nat> :: SafeToKeep(nodes, keep) ==> NeededSet(nodes) <= keep
  {
    forall i: nat | i < |nodes| && nodes[i].effect ensures i in NeededSet(nodes) {
      FeedsItself(nodes, i);
    }
    forall i, k | i in NeededSet(nodes) && 0 <= k < |nodes[i].inputs| ensures nodes[i].inputs[k] in NeededSet(nodes) {
      assert ValidNode(|nodes|, nodes[i]);
      var from: nat :| from < |nodes| && nodes[from].effect && Feeds(nodes, from, i);
      FeedsOperand(nodes, from, i, nodes[i].inputs[k]);
    }
    forall keep: set<nat> | SafeToKeep(nodes, keep) ensures NeededSet(nodes) <= keep {
      forall i | i in NeededSet(nodes) ensures i in keep { NeededIsLeast(nodes, keep, i); }
    }
  }

  ghost function Surviving(n: nat, dead: seq<nat>): set<nat> { set i: nat | i < n && i !in dead }

  /** Unlinking takes one instruction out of a list. */
  function Without(ids: seq<nat>, i: nat): seq<nat> {
    if ids == [] then [] else if ids[0] == i then ids[1..] else [ids[0]] + Without(ids[1..], i)
  }

  lemma {:induction false} FilterOther(ids: seq<nat>, keep: set<nat>, i: nat)
    requires i !in ids
    ensures Filter(ids, keep) == Filter(ids, keep - {i})
  {
    if ids != [] {
      assert ids[0] != i && i !in ids[1..];
      FilterOther(ids[1..], keep, i);
    }
  }

  lemma {:induction false} WithoutFilters(ids: seq<nat>, keep: set<nat>, i: nat)
    requires NoRepeats(ids) && i in ids && i in keep
    ensures Without(Filter(ids, keep), i) == Filter(ids, keep - {i})
  {
    hide Filter, Without;
    var rest, x := ids[1..], ids[0];
    FilterStep(ids, keep);
    FilterStep(ids, keep - {i});
    WithoutStep(x, Filter(rest, keep), i);
    if x == i {
      HeadOnce(ids);
      FilterOther(rest, keep, i);
    } else {
      WithoutFilters(rest, keep, i);
    }
  }

  lemma FilterStep(ids: seq<nat>, keep: set<nat>)
    requires ids != []
    ensures Filter(ids, keep) == if ids[0] in keep then [ids[0]] + Filter(ids[1..], keep) else Filter(ids[1..], keep)
  {
  }

  lemma WithoutStep(x: nat, s: seq<nat>, i: nat)
    ensures Without([x] + s, i) == if x == i then s else [x] + Without(s, i)
  {
    assert ([x] + s)[1..] == s;
  }

  lemma HeadOnce(ids: seq<nat>)
    requires ids != [] && NoRepeats(ids)
    ensures ids[0] !in ids[1..]
  {
  }

  lemma {:induction false} FilterAll(ids: seq<nat>, keep: set<nat>)
    requires forall k :: 0 <= k < |ids| ==> ids[k] in keep
    ensures Filter(ids, keep) == ids
  {
    if ids != [] { FilterAll(ids[1..], keep); }
  }

  class DcePass {
    const nodes: seq<Node>
    const home: seq<nat>
    const blocks: array<seq<nat>>
    const alive: array<bool>
    var deadInstrs: seq<nat>

    constructor (p: Program)
      requires ValidProgram(p)
      ensures nodes == p.nodes && home == p.home && blocks[..] == p.blocks && deadInstrs == []
      ensures fresh(blocks) && fresh(alive) && blocks != alive as object
      ensures alive.Length == |nodes| && forall i :: 0 <= i < |nodes| ==> !alive[i]
    {
      nodes, home, deadInstrs := p.nodes, p.home, [];
      blocks := new seq<nat>[|p.blocks|](b requires 0 <= b < |p.blocks| => p.blocks[b]);
      alive := new bool[|p.nodes|](_ => false);
    }

    ghost predicate Valid()
      reads blocks
    {
      ValidProgram(Program(nodes, blocks[..], home)) && alive.Length == |nodes| && blocks != alive as object
    }

    /** All operands of `i` are marked. */
    predicate Closed(i: nat)
      requires i < |nodes|
      reads alive
    {
      forall k :: 0 <= k < |nodes[i].inputs| ==> nodes[i].inputs[k] < alive.Length && alive[nodes[i].inputs[k]]
    }

    /** Marks `i` and whatever it depends on; an instruction met again, as on a cycle of phis, ends the walk. */
    method MarkAlive(i: nat)
      requires Valid() && i < |nodes|
      modifies alive
      ensures alive[i] && forall x :: 0 <= x < |nodes| && old(alive[x]) ==> alive[x]
      ensures forall x :: 0 <= x < |nodes| && alive[x] && !old(alive[x]) ==> Closed(x) && Feeds(nodes, i, x)
      decreases set x | 0 <= x < |nodes| && !alive[x]
    {
      hide Feeds;
      var wasSet := !alive[i];
      ghost var unmarked := set x | 0 <= x < |nodes| && !alive[x];
      alive[i] := true;
      FeedsItself(nodes, i);
      if wasSet {
        assert i in unmarked;
        var k := 0;
        while k < |nodes[i].inputs|
          invariant 0 <= k <= |nodes[i].inputs| && alive[i]
          invariant forall x :: 0 <= x < |nodes| && old(alive[x]) ==> alive[x]
          invariant forall l :: 0 <= l < k ==> nodes[i].inputs[l] < |nodes| && alive[nodes[i].inputs[l]]
          invariant forall x :: 0 <= x < |nodes| && x != i && alive[x] && !old(alive[x]) ==> Closed(x) && Feeds(nodes, i, x)
        {
          assert ValidNode(|nodes|, nodes[i]);
          ghost var j := nodes[i].inputs[k];
          ghost var now := set x | 0 <= x < |nodes| && !alive[x];
          assert now <= unmarked && i !in now;
          ghost var before := alive[..];
          MarkAlive(nodes[i].inputs[k]);
          forall x | 0 <= x < |nodes| && alive[x] && !before[x] ensures Feeds(nodes, i, x) {
            FeedsThrough(nodes, i, j, x);
          }
          k := k + 1;
        }
      }
    }

    /** After marking from every instruction with side effects, exactly the needed ones are marked. */
    method MarkAll()
      requires Valid() && forall i :: 0 <= i < |nodes| ==> !alive[i]
      modifies alive
      ensures forall i :: 0 <= i < |nodes| ==> (alive[i] <==> Needed(nodes, i))
    {
      hide Needed, Feeds;
      var b := 0;
      while b < blocks.Length
        invariant 0 <= b <= blocks.Length
        invariant forall x :: 0 <= x < |nodes| && alive[x] ==> Closed(x) && Needed(nodes, x)
        invariant forall c, k :: 0 <= c < b && 0 <= k < |blocks[c]| && nodes[blocks[c][k]].effect ==> alive[blocks[c][k]]
      {
        var j := 0;
        while j < |blocks[b]|
          invariant 0 <= j <= |blocks[b]|
          invariant forall x :: 0 <= x < |nodes| && alive[x] ==> Closed(x) && Needed(nodes, x)
          invariant forall c, k :: 0 <= c < b && 0 <= k < |blocks[c]| && nodes[blocks[c][k]].effect ==> alive[blocks[c][k]]
          invariant forall k :: 0 <= k < j && nodes[blocks[b][k]].effect ==> alive[blocks[b][k]]
        {
          var i := blocks[b][j];
          if nodes[i].effect {
            ghost var before := alive[..];
            MarkAlive(i);
            forall x | 0 <= x < |nodes| && alive[x] && !before[x] ensures Needed(nodes, x) {
              NeededFrom(nodes, i, x);
            }
          }
          j := j + 1;
        }
        b := b + 1;
      }
      forall i | 0 <= i < |nodes| && nodes[i].effect ensures alive[i] {
        assert i in blocks[home[i]];
      }
      ghost var kept := set x: nat | x < |nodes| && alive[x];
      assert SafeToKeep(nodes, kept);
      forall i | 0 <= i < |nodes| && Needed(nodes, i) ensures alive[i] {
        NeededIsLeast(nodes, kept, i);
      }
    }

    /** Collects the instructions not marked. */
    method CollectDead()
      requires Valid() && deadInstrs == []
      modifies this`deadInstrs
      ensures NoRepeats(deadInstrs) && forall i: nat :: i in deadInstrs <==> i < |nodes| && !alive[i]
    {
      var b := 0;
      while b < blocks.Length
        invariant 0 <= b <= blocks.Length && NoRepeats(deadInstrs)
        invariant forall i: nat :: i in deadInstrs <==> i < |nodes| && !alive[i] && home[i] < b
      {
        var j := 0;
        while j < |blocks[b]|
          invariant 0 <= j <= |blocks[b]| && NoRepeats(deadInstrs)
          invariant forall i: nat :: i in deadInstrs <==> i < |nodes| && !alive[i] && (home[i] < b || i in blocks[b][..j])
        {
          var i := blocks[b][j];
          assert blocks[b][..j + 1] == blocks[b][..j] + [i];
          if !alive[i] { deadInstrs := deadInstrs + [i]; }
          j := j + 1;
        }
        assert blocks[b][..j] == blocks[b];
        b := b + 1;
      }
    }

    /** Unlinks them one by one. */
    method RemoveDead()
      requires Valid() && NoRepeats(deadInstrs) && forall k :: 0 <= k < |deadInstrs| ==> deadInstrs[k] < |nodes|
      modifies blocks, this`deadInstrs
      ensures deadInstrs == []
      ensures Trimmed(old(blocks[..]), Surviving(|nodes|, old(deadInstrs)), blocks[..])
    {
      hide Filter, Without;
      ghost var start := blocks[..];
      ghost var keep := Surviving(|nodes|, []);
      forall b | 0 <= b < |start| ensures start[b] == Filter(start[b], keep) { FilterAll(start[b], keep); }
      var k := 0;
      while k < |deadInstrs|
        invariant 0 <= k <= |deadInstrs| && deadInstrs == old(deadInstrs)
        invariant keep == Surviving(|nodes|, deadInstrs[..k])
        invariant Trimmed(start, keep, blocks[..])
      {
        var i := deadInstrs[k];
        var b := home[i];
        ghost var was := blocks[..];
        blocks[b] := Without(blocks[b], i);
        assert deadInstrs[..k + 1] == deadInstrs[..k] + [i];
        assert i in start[b] && forall c :: 0 <= c < |start| && c != b ==> i !in start[c];
        forall c | 0 <= c < |start| ensures blocks[c] == Filter(start[c], keep - {i}) {
          if c == b { WithoutFilters(start[c], keep, i); } else { FilterOther(start[c], keep, i); }
        }
        keep := keep - {i};
        k := k + 1;
      }
      assert deadInstrs[..k] == deadInstrs;
      deadInstrs := [];
    }

    /** The pass keeps exactly the needed instructions, in their blocks and order, and reports whether any went. */
    method Run() returns (foundDead: bool)
      requires Valid() && deadInstrs == [] && forall i :: 0 <= i < |nodes| ==> !alive[i]
      modifies this, alive, blocks
      ensures Trimmed(old(blocks[..]), NeededSet(nodes), blocks[..])
      ensures foundDead <==> exists i: nat :: i < |nodes| && !Needed(nodes, i)
    {
      hide Needed, Trimmed;
      MarkAll();
      CollectDead();
      foundDead := deadInstrs != [];
      assert foundDead ==> deadInstrs[0] in deadInstrs;
      assert Surviving(|nodes|, deadInstrs) == NeededSet(nodes);
      forall k | 0 <= k < |deadInstrs| ensures deadInstrs[k] < |nodes| { assert deadInstrs[k] in deadInstrs; }
      RemoveDead();
    }
  }

  lemma NeededFrom(nodes: seq<Node>, from: nat, i: nat)
    requires from < |nodes| && nodes[from].effect && Feeds(nodes, from, i)
    ensures Needed(nodes, i)
  {
  }

  /** The program the pass leaves behaves as the one it was given: the same side effects with the same operand
      values, on every path and for any number of blocks. */
  lemma {:induction false} DcePreserves(w: World, p: Program, blocks': seq<seq<nat>>, b: nat, env: seq<int>, n: nat)
    requires ValidProgram(p) && Trimmed(p.blocks, NeededSet(p.nodes), blocks') && |env| == |p.nodes|
    ensures ValidBlocks(p.nodes, p.blocks) && ValidBlocks(p.nodes, blocks')
    ensures Run(w, p.nodes, p.blocks, b, b, State(env, []), n) == Run(w, p.nodes, blocks', b, b, State(env, []), n)
  {
    NeededIsSafe(p.nodes);
    forall c, k | 0 <= c < |blocks'| && 0 <= k < |blocks'[c]| ensures blocks'[c][k] < |p.nodes| {
      assert blocks'[c][k] in p.blocks[c];
    }
    RunAgrees(w, p.nodes, p.blocks, blocks', NeededSet(p.nodes), b, b, State(env, []), State(env, []), n);
  }
}
