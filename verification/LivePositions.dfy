/** The positions at which a value is live, and how the ranges grow towards them. */
module LivePositions {
  import opened LiveGraph
  import opened LiveRanges

  /** The first position of block `b`. */
  function Begin(g: Graph, b: nat): nat
    requires b <= |g|
  {
    if b == 0 then 0 else Begin(g, b - 1) + STEP * (|g[b - 1].body| + 1)
  }

  /** The live number of instruction `i` of block `b`; phis have the number of their block. */
  function Number(g: Graph, b: nat, i: nat): nat
    requires b < |g|
  {
    Begin(g, b) + STEP * (i + 1)
  }

  lemma NumberInside(g: Graph, b: nat, i: nat)
    requires b < |g| && i < |g[b].body|
    ensures Begin(g, b) < Number(g, b, i) && Number(g, b, i) + STEP <= Begin(g, b + 1)
  {
  }

  lemma NumberIncreases(g: Graph, b: nat, i: nat, j: nat)
    requires b < |g|
    ensures i < j ==> Number(g, b, i) < Number(g, b, j)
    ensures Number(g, b, i) == Number(g, b, j) ==> i == j
  {
  }

  lemma {:induction false} BeginIncreases(g: Graph, b: nat, c: nat)
    requires b <= c <= |g|
    ensures Begin(g, b) <= Begin(g, c)
    decreases c
  {
    if b < c { BeginIncreases(g, b, c - 1); }
  }

  /** From instruction `i` on, a use of `v` comes after position `p`. */
  predicate UseAfter(g: Graph, b: nat, i: nat, v: nat, p: nat)
    requires b < |g|
  {
    exists j :: i <= j < |g[b].body| && v in g[b].body[j].inputs && p < Number(g, b, j)
  }

  /** From instruction `i` on, no definition of `v` comes after `p`. */
  predicate DefinedBy(g: Graph, b: nat, i: nat, v: nat, p: nat)
    requires b < |g|
  {
    forall j :: i <= j < |g[b].body| && g[b].body[j].id == v ==> Number(g, b, j) <= p
  }

  /** A value that nothing uses occupies its own step. */
  ghost predicate DeadAt(g: Graph, b: nat, i: nat, v: nat, p: nat)
    requires Shaped(g) && b < |g|
  {
    exists j :: i <= j < |g[b].body| && g[b].body[j].id == v && Number(g, b, j) <= p < Number(g, b, j) + STEP
                && !LiveOut(g, b, v) && forall l :: j < l < |g[b].body| ==> v !in g[b].body[l].inputs
  }

  /** Position `p` of block `b` lies between the definition of `v` and a later need for it, as far as the
      instructions from `i` on show. */
  ghost predicate LiveAt(g: Graph, b: nat, i: nat, v: nat, p: nat)
    requires Shaped(g) && b < |g|
  {
    ((LiveOut(g, b, v) || UseAfter(g, b, i, v, p)) && DefinedBy(g, b, i, v, p)) || DeadAt(g, b, i, v, p)
  }

  predicate InBlock(g: Graph, b: nat, p: nat)
    requires b < |g|
  {
    Begin(g, b) <= p < Begin(g, b + 1)
  }

  /** `v` is live at `p`, a position of block `x` or a later one. */
  ghost predicate LiveSince(g: Graph, x: nat, v: nat, p: nat)
    requires Shaped(g)
  {
    exists y :: x <= y < |g| && InBlock(g, y, p) && LiveAt(g, y, 0, v, p)
  }

  /** What has been seen when the backward walk is at instruction `i` of block `x`. */
  ghost predicate Seen(g: Graph, x: nat, i: nat, v: nat, p: nat)
    requires Shaped(g) && x < |g|
  {
    (InBlock(g, x, p) && LiveAt(g, x, i, v, p)) || LiveSince(g, x + 1, v, p)
  }

  /** The ranges cover exactly what has been seen. */
  ghost predicate Matches(g: Graph, x: nat, i: nat, v: nat, rs: seq<LiveRange>)
    requires Shaped(g) && x < |g|
  {
    Ordered(rs) && forall p: nat :: Covers(rs, p) <==> Seen(g, x, i, v, p)
  }

  ghost predicate MatchesSince(g: Graph, x: nat, v: nat, rs: seq<LiveRange>)
    requires Shaped(g)
  {
    Ordered(rs) && forall p: nat :: Covers(rs, p) <==> LiveSince(g, x, v, p)
  }

  lemma SinceIsLater(g: Graph, x: nat, v: nat, p: nat)
    requires Shaped(g) && x <= |g| && LiveSince(g, x, v, p)
    ensures Begin(g, x) <= p
  {
    var y :| x <= y < |g| && InBlock(g, y, p) && LiveAt(g, y, 0, v, p);
    BeginIncreases(g, x, y);
  }

  lemma AllLater(g: Graph, x: nat, v: nat)
    requires Shaped(g) && x <= |g|
    ensures forall p: nat :: LiveSince(g, x, v, p) ==> Begin(g, x) <= p
  {
    forall p: nat | LiveSince(g, x, v, p) ensures Begin(g, x) <= p { SinceIsLater(g, x, v, p); }
  }

  lemma BlockDone(g: Graph, x: nat, v: nat, rs: seq<LiveRange>)
    requires Shaped(g) && x < |g| && Matches(g, x, 0, v, rs)
    ensures MatchesSince(g, x, v, rs)
  {
    hide LiveAt, InBlock;
    forall p: nat ensures Seen(g, x, 0, v, p) <==> LiveSince(g, x, v, p) {
    }
  }

  lemma StrictShaped(g: Graph)
    requires Strict(g)
    ensures Shaped(g) && SingleDefs(g)
  {
  }

  // ----- Whole blocks -----

  lemma LiveAtEnd(g: Graph, x: nat, v: nat, p: nat)
    requires Shaped(g) && x < |g|
    ensures LiveAt(g, x, |g[x].body|, v, p) <==> LiveOut(g, x, v)
  {
  }

  /** A value needed after the block is live in all of it, until its definition is found. */
  lemma WholeBlock(g: Graph, x: nat, v: nat, rs: seq<LiveRange>)
    requires Shaped(g) && x < |g| && MatchesSince(g, x + 1, v, rs)
    ensures var r := LiveRange(Begin(g, x), Begin(g, x + 1));
      if LiveOut(g, x, v) then AddOk(rs, r) && Matches(g, x, |g[x].body|, v, AddRange(rs, r))
      else Matches(g, x, |g[x].body|, v, rs)
  {
    hide LiveAt, LiveOut, Covers, LiveSince, Ordered;
    forall p: nat ensures LiveAt(g, x, |g[x].body|, v, p) <==> LiveOut(g, x, v) { LiveAtEnd(g, x, v, p); }
    if LiveOut(g, x, v) {
      AllLater(g, x + 1, v);
      EarliestFrom(rs, Begin(g, x + 1));
      AddCovers(rs, LiveRange(Begin(g, x), Begin(g, x + 1)));
    }
  }

  // ----- Single instructions -----

  /** In strict form an operand is not defined at or after its use. */
  lemma OperandEarlier(g: Graph, x: nat, i: nat, v: nat)
    requires Strict(g) && x < |g| && i < |g[x].body| && v in g[x].body[i].inputs
    ensures forall j :: i <= j < |g[x].body| ==> g[x].body[j].id != v
  {
    assert DefinedBefore(g, x, i, v);
    if DefinedOnEntry(g, x, v) {
      var p :| IsPath(g, p) && p[0] == 0 && p[|p| - 1] == x by { assert Reachable(g, x); }
      assert DefinedInside(g, p, v);
      var k :| 0 <= k < |p| - 1 && Defines(g, p[k], v);
      Forward(g, p, k, |p| - 1);
    }
  }

  lemma LiveAtUse(g: Graph, x: nat, i: nat, v: nat, p: nat)
    requires Strict(g) && x < |g| && i < |g[x].body| && v in g[x].body[i].inputs
    ensures LiveAt(g, x, i + 1, v, p) <==> LiveOut(g, x, v) || UseAfter(g, x, i + 1, v, p)
    ensures LiveAt(g, x, i, v, p) <==> LiveOut(g, x, v) || UseAfter(g, x, i + 1, v, p) || p < Number(g, x, i)
  {
    hide Number, Strict, LiveOut;
    OperandEarlier(g, x, i, v);
  }

  /** A later use covers everything up to it. */
  lemma UseCovers(g: Graph, x: nat, i: nat, j: nat, v: nat)
    requires x < |g| && i < j < |g[x].body| && v in g[x].body[j].inputs
    ensures var i' := i + 1; forall p: nat :: p <= Number(g, x, i) ==> UseAfter(g, x, i', v, p)
  {
    NumberIncreases(g, x, i, j);
  }

  predicate UsedLater(g: Graph, x: nat, i: nat, v: nat)
    requires x < |g|
  {
    exists j :: i < j < |g[x].body| && v in g[x].body[j].inputs
  }

  /** A use makes its operand live from the begin of the block. */
  lemma UseStep(g: Graph, x: nat, i: nat, v: nat, rs: seq<LiveRange>)
    requires Strict(g) && x < |g| && i < |g[x].body| && v in g[x].body[i].inputs && Matches(g, x, i + 1, v, rs)
    ensures var r := LiveRange(Begin(g, x), Number(g, x, i)); AddOk(rs, r) && Matches(g, x, i, v, AddRange(rs, r))
  {
    hide LiveAt, LiveOut, Covers, LiveSince, Ordered, Strict, UseAfter;
    StrictShaped(g);
    var lo, n, hi := Begin(g, x), Number(g, x, i), Begin(g, x + 1);
    NumberInside(g, x, i);
    var i' := i + 1;
    forall p: nat ensures LiveAt(g, x, i', v, p) <==> LiveOut(g, x, v) || UseAfter(g, x, i', v, p) {
      LiveAtUse(g, x, i, v, p);
    }
    forall p: nat ensures LiveAt(g, x, i, v, p) <==> LiveOut(g, x, v) || UseAfter(g, x, i', v, p) || p < n {
      LiveAtUse(g, x, i, v, p);
    }
    AllLater(g, x + 1, v);
    if LiveOut(g, x, v) || UsedLater(g, x, i, v) {
      if UsedLater(g, x, i, v) {
        var j :| i < j < |g[x].body| && v in g[x].body[j].inputs;
        UseCovers(g, x, i, j, v);
      }
      EarliestIs(rs, lo, n);
    } else {
      forall p: nat ensures !UseAfter(g, x, i', v, p) { NoUseAfter(g, x, i, v, p); }
      EarliestFrom(rs, hi);
    }
    AddCovers(rs, LiveRange(lo, n));
  }

  lemma NoUseAfter(g: Graph, x: nat, i: nat, v: nat, p: nat)
    requires x < |g| && !UsedLater(g, x, i, v)
    ensures !UseAfter(g, x, i + 1, v, p)
  {
  }

  /** A second use by the same instruction adds nothing. */
  lemma UseAgain(g: Graph, x: nat, i: nat, v: nat, rs: seq<LiveRange>)
    requires Strict(g) && x < |g| && i < |g[x].body| && v in g[x].body[i].inputs && Matches(g, x, i, v, rs)
    ensures var r := LiveRange(Begin(g, x), Number(g, x, i)); AddOk(rs, r) && Matches(g, x, i, v, AddRange(rs, r))
  {
    hide LiveAt, LiveOut, Covers, LiveSince, Ordered, Strict, UseAfter;
    StrictShaped(g);
    var lo, n, hi := Begin(g, x), Number(g, x, i), Begin(g, x + 1);
    NumberInside(g, x, i);
    forall p: nat | p < n ensures LiveAt(g, x, i, v, p) { LiveAtUse(g, x, i, v, p); }
    AllLater(g, x + 1, v);
    EarliestIs(rs, lo, n);
    AddCovers(rs, LiveRange(lo, n));
  }

  /** Other values are not affected by an instruction. */
  lemma OtherStep(g: Graph, x: nat, i: nat, v: nat, rs: seq<LiveRange>)
    requires Shaped(g) && x < |g| && i < |g[x].body| && v !in g[x].body[i].inputs && v != g[x].body[i].id
    requires Matches(g, x, i + 1, v, rs)
    ensures Matches(g, x, i, v, rs)
  {
    hide Covers, LiveSince, Ordered, InBlock, LiveAt;
    forall p: nat ensures LiveAt(g, x, i, v, p) <==> LiveAt(g, x, i + 1, v, p) { OtherLive(g, x, i, v, p); }
  }

  lemma OtherLive(g: Graph, x: nat, i: nat, v: nat, p: nat)
    requires Shaped(g) && x < |g| && i < |g[x].body| && v !in g[x].body[i].inputs && v != g[x].body[i].id
    ensures LiveAt(g, x, i, v, p) <==> LiveAt(g, x, i + 1, v, p)
  {
    hide LiveOut, Number;
  }

  // ----- Definitions -----

  lemma LiveAtDef(g: Graph, x: nat, i: nat, v: nat, p: nat)
    requires Strict(g) && x < |g| && i < |g[x].body| && g[x].body[i].id == v
    ensures LiveAt(g, x, i + 1, v, p) <==> LiveOut(g, x, v) || UseAfter(g, x, i + 1, v, p)
    ensures LiveOut(g, x, v) || UsedLater(g, x, i, v) ==>
      (LiveAt(g, x, i, v, p) <==> (LiveOut(g, x, v) || UseAfter(g, x, i + 1, v, p)) && Number(g, x, i) <= p)
    ensures !(LiveOut(g, x, v) || UsedLater(g, x, i, v)) ==>
      (LiveAt(g, x, i, v, p) <==> Number(g, x, i) <= p < Number(g, x, i) + STEP)
  {
    OwnOperand(g, x, i, v);
    assert forall j :: i + 1 <= j < |g[x].body| ==> g[x].body[j].id != v;
    hide Number, Strict, LiveOut;
  }

  lemma OwnOperand(g: Graph, x: nat, i: nat, v: nat)
    requires Strict(g) && x < |g| && i < |g[x].body| && g[x].body[i].id == v
    ensures v !in g[x].body[i].inputs
  {
    if v in g[x].body[i].inputs { OperandEarlier(g, x, i, v); }
  }

  /** Nothing is live elsewhere that is neither live out of its block nor used in it. */
  lemma NotLiveElsewhere(g: Graph, x: nat, i: nat, v: nat, p: nat)
    requires Strict(g) && x < |g| && i < |g[x].body| && g[x].body[i].id == v && !LiveOut(g, x, v)
    ensures !LiveSince(g, x + 1, v, p)
  {
    if LiveSince(g, x + 1, v, p) {
      StrictShaped(g);
      var y :| x + 1 <= y < |g| && InBlock(g, y, p) && LiveAt(g, y, 0, v, p);
      UnusedElsewhere(g, x, i, y, v);
    }
  }

  /** The definition cuts the earliest range off, or makes the first and only one. */
  lemma DefStep(g: Graph, x: nat, i: nat, v: nat, rs: seq<LiveRange>)
    requires Strict(g) && x < |g| && i < |g[x].body| && g[x].body[i].id == v && Matches(g, x, i + 1, v, rs)
    ensures SetOk(rs, Number(g, x, i)) && Matches(g, x, i, v, SetBegin(rs, Number(g, x, i)))
  {
    hide LiveAt, LiveOut, Covers, LiveSince, Ordered, Strict, UseAfter;
    StrictShaped(g);
    var lo, n, hi := Begin(g, x), Number(g, x, i), Begin(g, x + 1);
    NumberInside(g, x, i);
    var i' := i + 1;
    AllLater(g, x + 1, v);
    if LiveOut(g, x, v) || UsedLater(g, x, i, v) {
      forall p: nat ensures LiveAt(g, x, i', v, p) <==> LiveOut(g, x, v) || UseAfter(g, x, i', v, p) {
        LiveAtDef(g, x, i, v, p);
      }
      forall p: nat ensures LiveAt(g, x, i, v, p) <==> (LiveOut(g, x, v) || UseAfter(g, x, i', v, p)) && n <= p {
        LiveAtDef(g, x, i, v, p);
      }
      if UsedLater(g, x, i, v) {
        var j :| i < j < |g[x].body| && v in g[x].body[j].inputs;
        UseCovers(g, x, i, j, v);
      }
      EarliestIs(rs, lo, n + 1);
    } else {
      var x' := x + 1;
      forall p: nat ensures !Seen(g, x, i', v, p) {
        LiveAtDef(g, x, i, v, p);
        NoUseAfter(g, x, i, v, p);
        NotLiveElsewhere(g, x, i, v, p);
      }
      forall p: nat ensures !LiveSince(g, x', v, p) { NotLiveElsewhere(g, x, i, v, p); }
      forall p: nat ensures LiveAt(g, x, i, v, p) <==> n <= p < n + STEP { LiveAtDef(g, x, i, v, p); }
      EarliestCovered(rs);
    }
    SetCovers(rs, n);
  }
}
