/** Where live ranges begin: at the definition, so that intervals in listing order begin in order. */
module LiveOrder {
  import opened LiveGraph
  import opened LiveRanges
  import opened LivePositions

  // ----- Dominance of definitions -----

  /** The block that defines a value never needs it on entry. */
  lemma OwnNeed(g: Graph, d: nat, v: nat)
    requires Strict(g) && d < |g| && Defines(g, d, v)
    ensures !Needs(g, d, v)
  {
    if Needs(g, d, v) && UsedFrom(g, d, 0, v) {
      var j :| 0 <= j < |g[d].body| && v in g[d].body[j].inputs && forall l :: 0 <= l < j ==> g[d].body[l].id != v;
      assert DefinedBefore(g, d, j, v);
      NotOnEntry(g, d, v);
    }
  }

  /** On no path has `v` been defined before its own block. */
  lemma NotOnEntry(g: Graph, d: nat, v: nat)
    requires Strict(g) && d < |g| && Defines(g, d, v)
    ensures !DefinedOnEntry(g, d, v)
  {
    hide Defines, SingleDefs;
    assert Reachable(g, d);
    var p :| IsPath(g, p) && p[0] == 0 && p[|p| - 1] == d;
    if DefinedInside(g, p, v) {
      var j :| 0 <= j < |p| - 1 && Defines(g, p[j], v);
      OneBlock(g, p[j], d, v);
      Forward(g, p, j, |p| - 1);
    }
  }

  /** A block that needs `v` comes after one that defines it on every path. */
  lemma NeedsOnEntry(g: Graph, d: nat, z: nat, v: nat)
    requires Strict(g) && d < |g| && z < |g| && Defines(g, d, v) && Needs(g, z, v)
    ensures z != d && DefinedOnEntry(g, z, v)
  {
    OwnNeed(g, d, v);
    if UsedFrom(g, z, 0, v) {
      var j :| 0 <= j < |g[z].body| && v in g[z].body[j].inputs && forall l :: 0 <= l < j ==> g[z].body[l].id != v;
      assert DefinedBefore(g, z, j, v);
    } else {
      assert DefinedBefore(g, z, |g[z].body|, v);
    }
  }

  /** A path on which the definition lies, up to a block that is reached before any other definition. */
  lemma DefinedUpTo(g: Graph, d: nat, v: nat, y: nat, q: seq<nat>)
    requires Strict(g) && d < |g| && Defines(g, d, v) && y < |g| && IsPath(g, [y] + q) && DefinedOnEntry(g, ([y] + q)[|q|], v)
    requires forall k :: 0 <= k < |q| - 1 ==> q[k] < |g| && !Defines(g, q[k], v)
    ensures d <= y && (q == [] ==> d < y)
  {
    hide Defines, SingleDefs;
    assert Reachable(g, y);
    var r :| IsPath(g, r) && r[0] == 0 && r[|r| - 1] == y;
    var p := r + q;
    PathJoins(g, r, y, q);
    assert DefinedInside(g, p, v);
    var k :| 0 <= k < |p| - 1 && Defines(g, p[k], v);
    OneBlock(g, p[k], d, v);
    if k < |r| - 1 {
      Forward(g, r, k, |r| - 1);
    }
  }

  lemma PathJoins(g: Graph, r: seq<nat>, y: nat, q: seq<nat>)
    requires IsPath(g, r) && r[|r| - 1] == y && IsPath(g, [y] + q)
    ensures IsPath(g, r + q) && (r + q)[|r + q| - 1] == ([y] + q)[|q|] && (r + q)[0] == r[0]
  {
    var p, w := r + q, [y] + q;
    forall k | 0 <= k < |p| - 1 ensures Edge(g, p[k], p[k + 1]) {
      if k < |r| - 1 {
        assert p[k] == r[k] && p[k + 1] == r[k + 1];
      } else {
        assert p[k] == w[k - (|r| - 1)] && p[k + 1] == w[k + 1 - (|r| - 1)];
      }
    }
    forall k | 0 <= k < |p| ensures p[k] < |g| {
      if k >= |r| { assert p[k] == w[k - |r| + 1]; }
    }
    if q != [] { assert w[|q|] == q[|q| - 1] == p[|p| - 1]; }
  }

  /** A value is live out only of blocks from its own on, and out of its own if of any other. */
  lemma LiveOutPlace(g: Graph, d: nat, y: nat, v: nat)
    requires Strict(g) && d < |g| && y < |g| && Defines(g, d, v) && LiveOut(g, y, v)
    ensures d <= y && LiveOut(g, d, v)
  {
    hide Defines, SingleDefs, Needs, DefinedOnEntry;
    if y != d {
      if EdgeUse(g, y, v) {
        EdgeUsePlace(g, d, y, v);
      } else {
        var s :| Edge(g, y, s) && LiveIn(g, s, v);
        var q :| NeedingPath(g, s, v, q);
        var z := q[|q| - 1];
        NeedsOnEntry(g, d, z, v);
        assert Reachable(g, z);
        UsedElsewhere(g, d, z, v);
        EdgeThenPath(g, y, s, q);
        DefinedUpTo(g, d, v, y, q);
      }
    }
  }

  lemma EdgeThenPath(g: Graph, y: nat, s: nat, q: seq<nat>)
    requires IsPath(g, q) && q[0] == s && Edge(g, y, s)
    ensures IsPath(g, [y] + q) && ([y] + q)[|q|] == q[|q| - 1]
  {
  }

  /** So for a use on an edge, */
  lemma EdgeUsePlace(g: Graph, d: nat, y: nat, v: nat)
    requires Strict(g) && d < |g| && y < |g| && Defines(g, d, v) && EdgeUse(g, y, v) && y != d
    ensures d < y && LiveOut(g, d, v)
  {
    assert DefinedBefore(g, y, |g[y].body|, v);
    NotDefinedThere(g, d, y, v);
    assert Needs(g, y, v) && Reachable(g, y);
    hide Defines, SingleDefs, Needs;
    UsedElsewhere(g, d, y, v);
    DefinedUpTo(g, d, v, y, []);
  }

  /** and for a use in a body. */
  lemma UsePlace(g: Graph, d: nat, y: nat, i: nat, v: nat)
    requires Strict(g) && d < |g| && y < |g| && Defines(g, d, v) && i < |g[y].body| && v in g[y].body[i].inputs && y != d
    ensures d < y && LiveOut(g, d, v)
  {
    assert DefinedBefore(g, y, i, v);
    NotDefinedThere(g, d, y, v);
    assert UsedFrom(g, y, 0, v) && Needs(g, y, v) && Reachable(g, y);
    hide Defines, SingleDefs, Needs;
    UsedElsewhere(g, d, y, v);
    DefinedUpTo(g, d, v, y, []);
  }

  lemma NotDefinedThere(g: Graph, d: nat, y: nat, v: nat)
    requires SingleDefs(g) && d < |g| && y < |g| && Defines(g, d, v) && y != d
    ensures !DefPhi(g, y, v) && NotDefinedFrom(g, y, 0, v)
  {
  }

  // ----- Births -----

  /** A value and the position of its definition. */
  datatype Birth = Birth(v: nat, at: nat)

  function PhiBirths(g: Graph, b: nat): seq<Birth>
    requires b < |g|
  {
    seq(|g[b].phis|, k requires 0 <= k < |g[b].phis| => Birth(g[b].phis[k].id, Begin(g, b)))
  }

  function BodyBirths(g: Graph, b: nat): seq<Birth>
    requires b < |g|
  {
    seq(|g[b].body|, k requires 0 <= k < |g[b].body| => Birth(g[b].body[k].id, Number(g, b, k)))
  }

  /** The values of the first `b` blocks in the order in which they are numbered. */
  function Births(g: Graph, b: nat): seq<Birth>
    requires b <= |g|
  {
    if b == 0 then [] else Births(g, b - 1) + PhiBirths(g, b - 1) + BodyBirths(g, b - 1)
  }

  predicate IsPhi(g: Graph, d: nat, k: nat, x: Birth) {
    d < |g| && k < |g[d].phis| && g[d].phis[k].id == x.v && x.at == Begin(g, d)
  }

  predicate IsBody(g: Graph, d: nat, k: nat, x: Birth) {
    d < |g| && k < |g[d].body| && g[d].body[k].id == x.v && x.at == Number(g, d, k)
  }

  /** `x` is what some definition gives. */
  ghost predicate Listed(g: Graph, x: Birth) { exists d: nat, k: nat :: d < |g| && (IsPhi(g, d, k, x) || IsBody(g, d, k, x)) }

  /** In listing order, definitions never go back. */
  predicate Rising(births: seq<Birth>) { forall i, j :: 0 <= i < j < |births| ==> births[i].at <= births[j].at }

  lemma {:induction false} BirthsRise(g: Graph, b: nat)
    requires b <= |g|
    ensures Rising(Births(g, b)) && forall i :: 0 <= i < |Births(g, b)| ==> Births(g, b)[i].at <= Begin(g, b)
    ensures forall i :: 0 <= i < |Births(g, b)| ==> Listed(g, Births(g, b)[i])
  {
    hide Number, Begin;
    if b > 0 {
      BirthsRise(g, b - 1);
      BeginIncreases(g, b - 1, b);
      var old', phis, body := Births(g, b - 1), PhiBirths(g, b - 1), BodyBirths(g, b - 1);
      forall k | 0 <= k < |body| ensures Begin(g, b - 1) <= body[k].at <= Begin(g, b) && Listed(g, body[k]) {
        NumberInside(g, b - 1, k);
        assert IsBody(g, b - 1, k, body[k]);
      }
      forall k | 0 <= k < |phis| ensures Listed(g, phis[k]) { assert IsPhi(g, b - 1, k, phis[k]); }
      forall k, l | 0 <= k < l < |body| ensures body[k].at <= body[l].at { NumberIncreases(g, b - 1, k, l); }
      RisingJoin(old', phis, Begin(g, b - 1));
      RisingJoin(old' + phis, body, Begin(g, b - 1));
    }
  }

  lemma RisingJoin(x: seq<Birth>, y: seq<Birth>, n: nat)
    requires Rising(x) && Rising(y)
    requires (forall i :: 0 <= i < |x| ==> x[i].at <= n) && forall i :: 0 <= i < |y| ==> n <= y[i].at
    ensures Rising(x + y)
  {
  }

  /** Every definition is listed. */
  lemma {:induction false} BirthsComplete(g: Graph, b: nat, d: nat, k: nat, x: Birth)
    requires d < b <= |g| && (IsPhi(g, d, k, x) || IsBody(g, d, k, x))
    ensures x in Births(g, b)
  {
    hide Number, Begin;
    if d < b - 1 {
      BirthsComplete(g, b - 1, d, k, x);
    } else if IsPhi(g, d, k, x) {
      assert PhiBirths(g, d)[k] == x;
    } else {
      assert BodyBirths(g, d)[k] == x;
    }
  }

  ghost predicate ListedBelow(g: Graph, b: nat, v: nat) { exists d: nat :: d < b && d < |g| && Defines(g, d, v) }

  lemma {:induction false} BirthsBelow(g: Graph, b: nat)
    requires b <= |g|
    ensures forall i :: 0 <= i < |Births(g, b)| ==> ListedBelow(g, b, Births(g, b)[i].v)
  {
    hide Number, Begin;
    if b > 0 {
      BirthsBelow(g, b - 1);
      var phis, body := PhiBirths(g, b - 1), BodyBirths(g, b - 1);
      forall k | 0 <= k < |phis| ensures Defines(g, b - 1, phis[k].v) {}
      forall k | 0 <= k < |body| ensures Defines(g, b - 1, body[k].v) {}
      forall i | 0 <= i < |Births(g, b)| ensures ListedBelow(g, b, Births(g, b)[i].v) {
        if i < |Births(g, b - 1)| { assert ListedBelow(g, b - 1, Births(g, b - 1)[i].v); }
      }
    }
  }

  /** No value is listed twice. */
  lemma {:induction false} BirthsDistinct(g: Graph, b: nat)
    requires b <= |g| && SingleDefs(g)
    ensures forall i, j :: 0 <= i < j < |Births(g, b)| ==> Births(g, b)[i].v != Births(g, b)[j].v
  {
    hide Number, Begin, Defines;
    if b > 0 {
      BirthsDistinct(g, b - 1);
      BirthsBelow(g, b - 1);
      var old', phis, body := Births(g, b - 1), PhiBirths(g, b - 1), BodyBirths(g, b - 1);
      forall i | 0 <= i < |old'|
        ensures forall k :: 0 <= k < |phis| ==> old'[i].v != phis[k].v
        ensures forall k :: 0 <= k < |body| ==> old'[i].v != body[k].v
      {
        OtherBlock(g, b, old'[i].v);
      }
      DistinctInside(g, b - 1);
      DistinctJoin(old', phis);
      DistinctJoin(old' + phis, body);
    }
  }

  lemma OtherBlock(g: Graph, b: nat, v: nat)
    requires 0 < b <= |g| && SingleDefs(g) && ListedBelow(g, b - 1, v)
    ensures var block := g[b - 1];
      && (forall k :: 0 <= k < |block.phis| ==> v != block.phis[k].id)
      && (forall k :: 0 <= k < |block.body| ==> v != block.body[k].id)
  {
  }

  lemma DistinctInside(g: Graph, b: nat)
    requires b < |g| && SingleDefs(g)
    ensures forall i, j :: 0 <= i < j < |PhiBirths(g, b)| ==> PhiBirths(g, b)[i].v != PhiBirths(g, b)[j].v
    ensures forall i, j :: 0 <= i < j < |BodyBirths(g, b)| ==> BodyBirths(g, b)[i].v != BodyBirths(g, b)[j].v
    ensures forall i, j :: 0 <= i < |PhiBirths(g, b)| && 0 <= j < |BodyBirths(g, b)| ==> PhiBirths(g, b)[i].v != BodyBirths(g, b)[j].v
  {
    hide Number, Begin;
  }

  lemma DistinctJoin(x: seq<Birth>, y: seq<Birth>)
    requires forall i, j :: 0 <= i < j < |x| ==> x[i].v != x[j].v
    requires forall i, j :: 0 <= i < j < |y| ==> y[i].v != y[j].v
    requires forall i, j :: 0 <= i < |x| && 0 <= j < |y| ==> x[i].v != y[j].v
    ensures forall i, j :: 0 <= i < j < |x + y| ==> (x + y)[i].v != (x + y)[j].v
  {
  }

  // ----- The first live position -----

  /** A value defined in a body is live from its definition on and not before. */
  lemma BodyBorn(g: Graph, d: nat, k: nat, x: Birth)
    requires Strict(g) && IsBody(g, d, k, x)
    ensures LiveSince(g, 0, x.v, x.at) && forall p: nat :: LiveSince(g, 0, x.v, p) ==> x.at <= p
  {
    hide LiveOut, Number, Begin;
    StrictShaped(g);
    NumberInside(g, d, k);
    assert DefBody(g, d, x.v);
    LiveAtBirth(g, d, k, x);
    forall p: nat | LiveSince(g, 0, x.v, p) ensures x.at <= p {
      var y :| 0 <= y < |g| && InBlock(g, y, p) && LiveAt(g, y, 0, x.v, p);
      AtOrAfter(g, d, y, x.v, p);
      if y == d {
        OwnPosition(g, d, k, x, p);
      } else {
        BeginIncreases(g, d + 1, y);
      }
    }
  }

  lemma LiveAtBirth(g: Graph, d: nat, k: nat, x: Birth)
    requires Strict(g) && Shaped(g) && IsBody(g, d, k, x) && InBlock(g, d, x.at)
    ensures LiveSince(g, 0, x.v, x.at)
  {
    hide LiveOut;
    assert DefinedBy(g, d, 0, x.v, x.at);
    if !LiveOut(g, d, x.v) && !UseAfter(g, d, 0, x.v, x.at) {
      forall l | k < l < |g[d].body| ensures x.v !in g[d].body[l].inputs { NumberIncreases(g, d, k, l); }
      assert DeadAt(g, d, 0, x.v, x.at);
    }
    assert LiveAt(g, d, 0, x.v, x.at);
  }

  lemma OwnPosition(g: Graph, d: nat, k: nat, x: Birth, p: nat)
    requires Strict(g) && Shaped(g) && IsBody(g, d, k, x) && LiveAt(g, d, 0, x.v, p)
    ensures x.at <= p
  {
    hide LiveOut, Number;
  }

  /** Positions of a value are in its block or later ones. */
  lemma AtOrAfter(g: Graph, d: nat, y: nat, v: nat, p: nat)
    requires Strict(g) && Shaped(g) && d < |g| && y < |g| && Defines(g, d, v) && LiveAt(g, y, 0, v, p)
    ensures d <= y && (y != d ==> LiveOut(g, d, v))
  {
    hide LiveOut, Number, Strict, SingleDefs;
    if y != d {
      if LiveOut(g, y, v) {
        LiveOutPlace(g, d, y, v);
      } else if UseAfter(g, y, 0, v, p) {
        var j :| 0 <= j < |g[y].body| && v in g[y].body[j].inputs && p < Number(g, y, j);
        UsePlace(g, d, y, j, v);
      } else {
        StrictShaped(g);
        NotDefinedThere(g, d, y, v);
      }
    }
  }

  /** A phi is live from the begin of its block on, if it is live at all. */
  lemma PhiBorn(g: Graph, d: nat, k: nat, x: Birth, q: nat)
    requires Strict(g) && IsPhi(g, d, k, x) && LiveSince(g, 0, x.v, q)
    ensures LiveSince(g, 0, x.v, x.at) && x.at <= q
  {
    hide LiveOut, Number, Begin, Strict;
    StrictShaped(g);
    assert DefPhi(g, d, x.v);
    var y :| 0 <= y < |g| && InBlock(g, y, q) && LiveAt(g, y, 0, x.v, q);
    AtOrAfter(g, d, y, x.v, q);
    BeginIncreases(g, d, y);
    PhiStarts(g, d, k, x, y, q);
  }

  lemma PhiStarts(g: Graph, d: nat, k: nat, x: Birth, y: nat, q: nat)
    requires Shaped(g) && SingleDefs(g) && IsPhi(g, d, k, x) && d <= y < |g| && InBlock(g, y, q) && LiveAt(g, y, 0, x.v, q)
    requires y != d ==> LiveOut(g, d, x.v)
    ensures LiveSince(g, 0, x.v, x.at)
  {
    hide LiveOut;
    assert forall j :: 0 <= j < |g[d].body| ==> g[d].body[j].id != x.v;
    if y == d && !LiveOut(g, d, x.v) {
      assert UseAfter(g, d, 0, x.v, x.at);
    }
    assert DefinedBy(g, d, 0, x.v, x.at) && InBlock(g, d, x.at) && LiveAt(g, d, 0, x.v, x.at);
  }

  /** The first position covered is that of the definition. */
  lemma FirstCovered(g: Graph, x: Birth, d: nat, k: nat, rs: seq<LiveRange>)
    requires Strict(g) && Shaped(g) && (IsPhi(g, d, k, x) || IsBody(g, d, k, x)) && Ordered(rs) && rs != []
    requires forall p: nat :: Covers(rs, p) <==> LiveSince(g, 0, x.v, p)
    ensures Earliest(rs).begin == x.at
  {
    hide LiveSince, Strict;
    var first := Earliest(rs);
    assert Covers(rs, first.begin) by { assert rs[|rs| - 1].begin <= first.begin < rs[|rs| - 1].end; }
    if IsBody(g, d, k, x) { BodyBorn(g, d, k, x); } else { PhiBorn(g, d, k, x, first.begin); }
    NoneEarlier(rs, x.at);
  }

  lemma NoneEarlier(rs: seq<LiveRange>, p: nat)
    requires Ordered(rs) && rs != [] && Covers(rs, p)
    ensures Earliest(rs).begin <= p
  {
    var k :| 0 <= k < |rs| && rs[k].begin <= p < rs[k].end;
    assert k < |rs| - 1 ==> rs[|rs| - 1].end < rs[k].begin;
    assert rs[|rs| - 1].begin < rs[|rs| - 1].end;
  }
}
