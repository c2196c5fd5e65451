/** Control-flow graphs in SSA form, and liveness of values defined by paths. */
module LiveGraph {
  /** A phi chooses, for the predecessor control comes from, the value paired with it. */
  datatype Phi = Phi(id: nat, inputs: seq<(nat, nat)>)
  datatype Instr = Instr(id: nat, inputs: seq<nat>)
  datatype Block = Block(phis: seq<Phi>, body: seq<Instr>, succs: seq<nat>)

  /** Blocks in linear order; block 0 is the entry. */
  type Graph = seq<Block>

  predicate DefPhi(g: Graph, b: nat, v: nat)
    requires b < |g|
  {
    exists k :: 0 <= k < |g[b].phis| && g[b].phis[k].id == v
  }

  predicate DefBody(g: Graph, b: nat, v: nat)
    requires b < |g|
  {
    exists k :: 0 <= k < |g[b].body| && g[b].body[k].id == v
  }

  predicate Defines(g: Graph, b: nat, v: nat)
    requires b < |g|
  {
    DefPhi(g, b, v) || DefBody(g, b, v)
  }

  /** The value a phi takes when control comes from `b`. */
  function Resolve(inputs: seq<(nat, nat)>, b: nat): nat
    requires HasSource(inputs, b)
  {
    if inputs[0].1 == b then inputs[0].0 else Resolve(inputs[1..], b)
  }

  predicate HasSource(inputs: seq<(nat, nat)>, b: nat) {
    |inputs| > 0 && (inputs[0].1 == b || HasSource(inputs[1..], b))
  }

  /** Edges go forward, and every phi has an input for every predecessor. */
  predicate Shaped(g: Graph) {
    && (forall b, k :: 0 <= b < |g| && 0 <= k < |g[b].succs| ==> b < g[b].succs[k] < |g|)
    && (forall b, k, j :: 0 <= b < |g| && 0 <= k < |g[b].succs| && 0 <= j < |g[g[b].succs[k]].phis| ==>
          HasSource(g[g[b].succs[k]].phis[j].inputs, b))
  }

  /** Control leaving `b` hands `v` to a phi of a successor. */
  predicate EdgeUse(g: Graph, b: nat, v: nat)
    requires Shaped(g) && b < |g|
  {
    exists k, j :: 0 <= k < |g[b].succs| && 0 <= j < |g[g[b].succs[k]].phis|
                && Resolve(g[g[b].succs[k]].phis[j].inputs, b) == v
  }

  predicate Edge(g: Graph, b: nat, s: nat) { b < |g| && s in g[b].succs }

  predicate IsPath(g: Graph, p: seq<nat>) {
    |p| > 0 && (forall k :: 0 <= k < |p| ==> p[k] < |g|) && forall k :: 0 <= k < |p| - 1 ==> Edge(g, p[k], p[k + 1])
  }

  /** From instruction `i` of block `b` on, `v` is used before it is defined again, or it is not defined
      and needed afterwards. */
  predicate UsedFrom(g: Graph, b: nat, i: nat, v: nat)
    requires b < |g|
  {
    exists j :: i <= j < |g[b].body| && v in g[b].body[j].inputs && forall l :: i <= l < j ==> g[b].body[l].id != v
  }

  predicate NotDefinedFrom(g: Graph, b: nat, i: nat, v: nat)
    requires b < |g|
  {
    forall l :: i <= l < |g[b].body| ==> g[b].body[l].id != v
  }

  /** Block `b` itself needs the value `v` has when control enters it. */
  predicate Needs(g: Graph, b: nat, v: nat)
    requires Shaped(g) && b < |g|
  {
    !DefPhi(g, b, v) && (UsedFrom(g, b, 0, v) || (EdgeUse(g, b, v) && NotDefinedFrom(g, b, 0, v)))
  }

  /** A path on which `v` is not defined leads from `b` to a block that needs it. */
  predicate NeedingPath(g: Graph, b: nat, v: nat, p: seq<nat>)
    requires Shaped(g)
  {
    && IsPath(g, p) && p[0] == b && Needs(g, p[|p| - 1], v)
    && forall k :: 0 <= k < |p| - 1 ==> !Defines(g, p[k], v)
  }

  ghost predicate LiveIn(g: Graph, b: nat, v: nat)
    requires Shaped(g)
  {
    exists p :: NeedingPath(g, b, v, p)
  }

  ghost predicate LiveOut(g: Graph, b: nat, v: nat)
    requires Shaped(g) && b < |g|
  {
    EdgeUse(g, b, v) || exists s :: Edge(g, b, s) && LiveIn(g, s, v)
  }

  /** Liveness before instruction `i` of a block. */
  ghost predicate LiveFrom(g: Graph, b: nat, i: nat, v: nat)
    requires Shaped(g) && b < |g|
  {
    UsedFrom(g, b, i, v) || (LiveOut(g, b, v) && NotDefinedFrom(g, b, i, v))
  }

  /** The data-flow equation follows from the definition by paths. */
  lemma LiveInEquation(g: Graph, b: nat, v: nat)
    requires Shaped(g) && b < |g|
    ensures LiveIn(g, b, v) <==> !DefPhi(g, b, v) && LiveFrom(g, b, 0, v)
  {
    hide UsedFrom, EdgeUse;
    if LiveIn(g, b, v) {
      var p :| NeedingPath(g, b, v, p);
      if |p| > 1 {
        assert NeedingPath(g, p[1], v, p[1..]);
        assert Edge(g, b, p[1]) && LiveIn(g, p[1], v) && !Defines(g, p[0], v);
      }
    }
    if !DefPhi(g, b, v) && LiveFrom(g, b, 0, v) {
      if Needs(g, b, v) {
        assert NeedingPath(g, b, v, [b]);
      } else {
        var s :| Edge(g, b, s) && LiveIn(g, s, v);
        var p :| NeedingPath(g, s, v, p);
        assert NeedingPath(g, b, v, [b] + p);
      }
    }
  }

  lemma LiveFromStep(g: Graph, b: nat, i: nat, v: nat)
    requires Shaped(g) && b < |g| && i < |g[b].body|
    ensures LiveFrom(g, b, i, v) <==> v in g[b].body[i].inputs || (LiveFrom(g, b, i + 1, v) && v != g[b].body[i].id)
    ensures LiveFrom(g, b, |g[b].body|, v) <==> LiveOut(g, b, v)
  {
    hide LiveOut;
    if UsedFrom(g, b, i + 1, v) && v != g[b].body[i].id {
      assert UsedFrom(g, b, i, v);
    }
  }

  // ----- Strict SSA -----

  /** One definition for each value. */
  predicate SingleDefs(g: Graph) {
    && (forall b, k, c, l ::
          0 <= b < |g| && 0 <= k < |g[b].body| && 0 <= c < |g| && 0 <= l < |g[c].body| ==>
          g[b].body[k].id == g[c].body[l].id ==> b == c && k == l)
    && (forall b, k, c, l :: 0 <= b < |g| && 0 <= k < |g[b].phis| && 0 <= c < |g| && 0 <= l < |g[c].body| ==>
          g[b].phis[k].id != g[c].body[l].id)
    && (forall b, k, c, l ::
          0 <= b < |g| && 0 <= k < |g[b].phis| && 0 <= c < |g| && 0 <= l < |g[c].phis| ==>
          g[b].phis[k].id == g[c].phis[l].id ==> b == c && k == l)
  }

  /** Every path from the entry to `b` defines `v` before it gets there. */
  ghost predicate DefinedOnEntry(g: Graph, b: nat, v: nat) {
    forall p :: IsPath(g, p) && p[0] == 0 && p[|p| - 1] == b ==> DefinedInside(g, p, v)
  }

  predicate DefinedInside(g: Graph, p: seq<nat>, v: nat)
    requires IsPath(g, p)
  {
    exists k :: 0 <= k < |p| - 1 && Defines(g, p[k], v)
  }

  ghost predicate Reachable(g: Graph, b: nat) { exists p :: IsPath(g, p) && p[0] == 0 && p[|p| - 1] == b }

  /** The definition of an operand of instruction `i` of `b` has been executed. */
  ghost predicate DefinedBefore(g: Graph, b: nat, i: nat, v: nat)
    requires b < |g| && i <= |g[b].body|
  {
    DefPhi(g, b, v) || (exists j :: 0 <= j < i && g[b].body[j].id == v) || DefinedOnEntry(g, b, v)
  }

  /** Every block can be reached, and definitions dominate uses. */
  ghost predicate Strict(g: Graph) {
    && Shaped(g) && SingleDefs(g) && (forall b :: 0 <= b < |g| ==> Reachable(g, b))
    && (forall b, i, v :: 0 <= b < |g| && 0 <= i < |g[b].body| && v in g[b].body[i].inputs ==> DefinedBefore(g, b, i, v))
    && (forall b, v :: 0 <= b < |g| && EdgeUse(g, b, v) ==> DefinedBefore(g, b, |g[b].body|, v))
  }

  /** Paths only go forward. */
  lemma {:induction false} Forward(g: Graph, p: seq<nat>, j: nat, k: nat)
    requires Shaped(g) && IsPath(g, p) && j < k < |p|
    ensures p[j] < p[k]
    decreases k
  {
    assert Edge(g, p[k - 1], p[k]);
    if j < k - 1 { Forward(g, p, j, k - 1); }
  }

  lemma OneBlock(g: Graph, c: nat, d: nat, v: nat)
    requires SingleDefs(g) && c < |g| && d < |g| && Defines(g, c, v) && Defines(g, d, v)
    ensures c == d
  {
  }

  /** `v` is needed at `z`, but defined in another block `d`: then it is live out of `d`. */
  lemma UsedElsewhere(g: Graph, d: nat, z: nat, v: nat)
    requires Shaped(g) && SingleDefs(g) && d < |g| && z < |g| && Defines(g, d, v)
    requires Needs(g, z, v) && DefinedOnEntry(g, z, v) && Reachable(g, z)
    ensures LiveOut(g, d, v)
  {
    hide Needs, Defines, SingleDefs;
    var p :| IsPath(g, p) && p[0] == 0 && p[|p| - 1] == z;
    assert DefinedInside(g, p, v);
    var j :| 0 <= j < |p| - 1 && Defines(g, p[j], v);
    OneBlock(g, p[j], d, v);
    var q := p[j + 1..];
    assert IsPath(g, q);
    forall l | 0 <= l < |q| - 1 ensures !Defines(g, q[l], v) {
      Forward(g, p, j, j + 1 + l);
      if Defines(g, q[l], v) { OneBlock(g, q[l], d, v); }
    }
    assert NeedingPath(g, p[j + 1], v, q);
    assert Edge(g, p[j], p[j + 1]);
  }

  /** A value defined in the body of `d` and not live out of it is used nowhere else. */
  lemma UnusedElsewhere(g: Graph, d: nat, k: nat, z: nat, v: nat)
    requires Strict(g) && d < |g| && z < |g| && z != d && k < |g[d].body| && g[d].body[k].id == v && !LiveOut(g, d, v)
    ensures !EdgeUse(g, z, v) && forall i :: 0 <= i < |g[z].body| ==> v !in g[z].body[i].inputs
    ensures !LiveOut(g, z, v)
  {
    NoUseAt(g, d, k, z, v);
    if LiveOut(g, z, v) {
      var s :| Edge(g, z, s) && LiveIn(g, s, v);
      var p :| NeedingPath(g, s, v, p);
      var y := p[|p| - 1];
      if y == d {
        OwnUse(g, d, k, v);
      } else {
        NoUseAt(g, d, k, y, v);
      }
    }
  }

  lemma NoUseAt(g: Graph, d: nat, k: nat, z: nat, v: nat)
    requires Strict(g) && d < |g| && z < |g| && z != d && k < |g[d].body| && g[d].body[k].id == v && !LiveOut(g, d, v)
    ensures !EdgeUse(g, z, v) && forall i :: 0 <= i < |g[z].body| ==> v !in g[z].body[i].inputs
  {
    assert !DefPhi(g, z, v) && NotDefinedFrom(g, z, 0, v);
    if EdgeUse(g, z, v) {
      assert DefinedBefore(g, z, |g[z].body|, v);
      UsedElsewhere(g, d, z, v);
    }
    forall i | 0 <= i < |g[z].body| ensures v !in g[z].body[i].inputs {
      if v in g[z].body[i].inputs {
        assert DefinedBefore(g, z, i, v) && UsedFrom(g, z, 0, v);
        UsedElsewhere(g, d, z, v);
      }
    }
  }

  /** The block that defines a value in its body does not need it. */
  lemma OwnUse(g: Graph, d: nat, k: nat, v: nat)
    requires Strict(g) && d < |g| && k < |g[d].body| && g[d].body[k].id == v && !LiveOut(g, d, v)
    ensures !Needs(g, d, v)
  {
    if UsedFrom(g, d, 0, v) && !DefPhi(g, d, v) {
      var j :| 0 <= j < |g[d].body| && v in g[d].body[j].inputs && forall l :: 0 <= l < j ==> g[d].body[l].id != v;
      assert DefinedBefore(g, d, j, v);
      UsedElsewhere(g, d, d, v);
    }
  }
}
