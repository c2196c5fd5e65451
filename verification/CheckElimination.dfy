/** The pass as it runs: every check still in its block unlinks the users of its operand that repeat it. */
module CheckElimination {
  import opened CheckModel

  /** Null, zero and negative checks have one operand, bounds checks an array and an index. */
  predicate ValidChecks(g: Graph) {
    && (forall i :: 0 <= i < |g.nodes| && g.nodes[i].kind != Plain ==>
          |g.nodes[i].inputs| == if g.nodes[i].kind == BoundsCheck then 2 else 1)
    && (forall i, j :: 0 <= i < |g.nodes| && 0 <= j < |g.nodes| && IsBounds(g, i) && IsBounds(g, j) ==>
          g.nodes[i].inputs[0] != g.nodes[j].inputs[1])
  }

  predicate IsBounds(g: Graph, i: nat)
    requires i < |g.nodes|
  {
    g.nodes[i].kind == BoundsCheck && |g.nodes[i].inputs| == 2
  }

  /** The users of a value are the instructions that have it as an operand. */
  predicate ValidUsers(g: Graph, users: seq<seq<nat>>) {
    && |users| == |g.nodes|
    && (forall v, k :: 0 <= v < |users| && 0 <= k < |users[v]| ==> users[v][k] < |g.nodes| && v in g.nodes[users[v][k]].inputs)
    && (forall u, k :: 0 <= u < |g.nodes| && 0 <= k < |g.nodes[u].inputs| && g.nodes[u].inputs[k] < |users| ==>
          u in users[g.nodes[u].inputs[k]])
  }

  /** The dominator relation the pass consults. */
  ghost predicate ValidDominators(g: Graph, dom: seq<seq<bool>>) {
    && |dom| == |g.blocks| && (forall a :: 0 <= a < |dom| ==> |dom[a]| == |g.blocks|)
    && forall a, b :: 0 <= a < |g.blocks| && 0 <= b < |g.blocks| ==> (dom[a][b] <==> BlockDominates(g, a, b))
  }

  /** `u` repeats `c` where `c` has always been executed. */
  ghost predicate Repeats(g: Graph, c: nat, u: nat)
    requires ValidGraph(g) && c < |g.nodes| && u < |g.nodes|
  {
    SameCheck(g, c, u) && Dominates(g, c, u)
  }

  lemma NotItself(g: Graph, c: nat)
    requires ValidGraph(g) && c < |g.nodes|
    ensures !Dominates(g, c, c)
  {
  }

  /** Removing what `c` makes superfluous keeps every removed check covered. */
  lemma CoverStep(g: Graph, gone: set<nat>, c: nat, gone': set<nat>)
    requires Strict(g) && AllCovered(g, gone) && c < |g.nodes| && c !in gone
    requires forall u: nat :: u in gone' <==> u in gone || (u < |g.nodes| && Repeats(g, c, u))
    ensures AllCovered(g, gone')
  {
    hide Strict, Dominates;
    StrictValid(g);
    NotItself(g, c);
    forall u | u in gone' ensures u < |g.nodes| && Covered(g, gone', u) {
      if u in gone {
        assert Covered(g, gone, u);
        var x: nat :| CoveredBy(g, gone, u, x) && Dominates(g, x, u);
        if x in gone' {
          DominatesTransitive(g, c, x, u);
          assert CoveredBy(g, gone', u, c);
        } else {
          assert CoveredBy(g, gone', u, x);
        }
      } else {
        assert CoveredBy(g, gone', u, c);
      }
    }
  }

  class CheckElimination {
    const g: Graph
    const rpo: seq<nat>
    const users: seq<seq<nat>>
    const dom: seq<seq<bool>>
    /** Whether an instruction still has a parent block. */
    const linked: array<bool>

    constructor (g: Graph, rpo: seq<nat>, users: seq<seq<nat>>, dom: seq<seq<bool>>)
      requires Strict(g) && ValidChecks(g) && ValidUsers(g, users) && ValidDominators(g, dom)
      requires forall b: nat :: b in rpo <==> b < |g.blocks|
      ensures Valid() && this.g == g && fresh(linked) && forall i :: 0 <= i < |g.nodes| ==> linked[i]
    {
      this.g, this.rpo, this.users, this.dom := g, rpo, users, dom;
      linked := new bool[|g.nodes|](_ => true);
    }

    ghost predicate Valid() {
      && Strict(g) && ValidGraph(g) && ValidChecks(g) && ValidUsers(g, users) && ValidDominators(g, dom)
      && linked.Length == |g.nodes| && forall b: nat :: b in rpo <==> b < |g.blocks|
    }

    ghost function Gone(): set<nat>
      requires linked.Length == |g.nodes|
      reads linked
    {
      set i: nat | i < |g.nodes| && !linked[i]
    }

    /** Walks the block until one of the two is met. */
    method IsEarlierInBasicBlock(i: nat, j: nat) returns (earlier: bool)
      requires Valid() && i < |g.nodes| && j < |g.nodes| && i != j && g.home[i] == g.home[j]
      ensures earlier <==> Earlier(g, i, j)
    {
      hide Strict;
      var ids := g.blocks[g.home[i]];
      ghost var pi, pj := Position(ids, i), Position(ids, j);
      var k := 0;
      while k < |ids|
        invariant 0 <= k <= pi && k <= pj
      {
        if ids[k] == i { return true; }
        if ids[k] == j { return false; }
        k := k + 1;
      }
      earlier := false;
    }

    /** Nothing dominates an instruction that has no block any more. */
    method DominatesNow(i: nat, j: nat) returns (dominates: bool)
      requires Valid() && i < |g.nodes| && j < |g.nodes|
      ensures dominates <==> linked[j] && (i == j || Dominates(g, i, j))
    {
      hide Strict, BlockDominates;
      if !linked[j] { return false; }
      if i == j { return true; }
      if g.home[i] == g.home[j] {
        dominates := IsEarlierInBasicBlock(i, j);
      } else {
        dominates := dom[g.home[i]][g.home[j]];
      }
    }

    /** What unlinking the users of a value that repeat `check` leaves, after the first `k` of them. */
    ghost predicate Unlinked(check: nat, seen: seq<nat>, was: seq<bool>)
      requires ValidGraph(g) && linked.Length == |g.nodes| == |was| && check < |g.nodes|
      reads linked
    {
      forall u: nat :: u < |g.nodes| ==> (linked[u] <==> was[u] && !(u in seen && Repeats(g, check, u)))
    }

    method SingleInputCheckDominates(check: nat, checkedValue: nat) returns (removed: bool)
      requires Valid() && check < |g.nodes| && g.nodes[check].kind != Plain && g.nodes[check].kind != BoundsCheck
      requires g.nodes[check].inputs == [checkedValue]
      modifies linked
      ensures forall u: nat :: u < |g.nodes| ==> (linked[u] <==> old(linked[u]) && !Repeats(g, check, u))
      ensures removed <==> exists u: nat :: u < |g.nodes| && old(linked[u]) && !linked[u]
    {
      hide Strict, Dominates, ValidDominators;
      NotItself(g, check);
      ghost var was := linked[..];
      var all := users[checkedValue];
      removed := false;
      var k := 0;
      while k < |all|
        invariant 0 <= k <= |all| && Unlinked(check, all[..k], was)
        invariant removed <==> exists u: nat :: u < |g.nodes| && was[u] && !linked[u]
      {
        var user := all[k];
        assert all[..k + 1] == all[..k] + [user];
        if user != check && g.nodes[user].kind == g.nodes[check].kind {
          SameOperand(g, check, user, checkedValue);
          var dominated := DominatesNow(check, user);
          if dominated {
            linked[user] := false;
            removed := true;
          }
        }
        k := k + 1;
      }
      assert all[..k] == all;
      forall u: nat | u < |g.nodes| && Repeats(g, check, u) ensures u in all {
        assert g.nodes[u].inputs[0] == checkedValue;
      }
    }

    /** One user of the array. */
    method BoundsUserDominated(check: nat, arr: nat, idx: nat, user: nat) returns (gone: bool)
      requires Valid() && check < |g.nodes| && g.nodes[check].kind == BoundsCheck && g.nodes[check].inputs == [arr, idx]
      requires user < |g.nodes| && arr in g.nodes[user].inputs
      modifies linked
      ensures linked[..] == old(linked[..])[user := old(linked[user]) && !Repeats(g, check, user)]
      ensures gone <==> old(linked[user]) && !linked[user]
    {
      hide Strict, Dominates, ValidDominators, ValidUsers;
      NotItself(g, check);
      gone := false;
      if user != check && g.nodes[user].kind == BoundsCheck {
        var dominated := DominatesNow(check, user);
        ArrayFirst(g, check, user);
        if dominated {
          if g.nodes[user].inputs[1] == idx {
            linked[user] := false;
            gone := true;
          }
        }
      }
    }

    method BoundsCheckDominates(check: nat, arr: nat, idx: nat) returns (removed: bool)
      requires Valid() && check < |g.nodes| && g.nodes[check].kind == BoundsCheck && g.nodes[check].inputs == [arr, idx]
      modifies linked
      ensures forall u: nat :: u < |g.nodes| ==> (linked[u] <==> old(linked[u]) && !Repeats(g, check, u))
      ensures removed <==> exists u: nat :: u < |g.nodes| && old(linked[u]) && !linked[u]
    {
      hide Strict, Repeats, ValidDominators;
      ghost var was := linked[..];
      var all := users[arr];
      removed := false;
      var k := 0;
      while k < |all|
        invariant 0 <= k <= |all| && Unlinked(check, all[..k], was)
        invariant removed <==> exists u: nat :: u < |g.nodes| && was[u] && !linked[u]
      {
        var user := all[k];
        assert all[..k + 1] == all[..k] + [user];
        ghost var before := linked[..];
        var gone := BoundsUserDominated(check, arr, idx, user);
        assert forall u: nat :: u < |g.nodes| && u != user ==> linked[..][u] == before[u];
        assert linked[..][user] == (before[user] && !Repeats(g, check, user));
        removed := removed || gone;
        k := k + 1;
      }
      assert all[..k] == all;
      forall u: nat | u < |g.nodes| && Repeats(g, check, u) ensures u in all {
        RepeatsUse(g, check, arr, idx, u);
      }
    }

    method TryRemoveCheck(i: nat) returns (removed: bool)
      requires Valid() && i < |g.nodes|
      modifies linked
      ensures forall u: nat :: u < |g.nodes| ==> (linked[u] <==> old(linked[u]) && !Repeats(g, i, u))
      ensures removed <==> exists u: nat :: u < |g.nodes| && old(linked[u]) && !linked[u]
    {
      hide Strict, Dominates, ValidDominators, ValidUsers;
      match g.nodes[i].kind
      case Plain => removed := false;
      case BoundsCheck =>
        assert g.nodes[i].inputs == [g.nodes[i].inputs[0], g.nodes[i].inputs[1]];
        removed := BoundsCheckDominates(i, g.nodes[i].inputs[0], g.nodes[i].inputs[1]);
      case _ =>
        assert g.nodes[i].inputs == [g.nodes[i].inputs[0]];
        removed := SingleInputCheckDominates(i, g.nodes[i].inputs[0]);
    }

    /** No linked check in `ids` has a linked repetition. */
    ghost predicate NoneRepeated(ids: seq<nat>)
      requires ValidGraph(g) && linked.Length == |g.nodes|
      reads linked
    {
      forall c: nat, u: nat :: c in ids && c < |g.nodes| && u < |g.nodes| && linked[c] && linked[u] ==> !Repeats(g, c, u)
    }

    /** The pass removes exactly the checks that a remaining check makes superfluous. */
    method Run() returns (removed: bool)
      requires Valid() && forall i :: 0 <= i < |g.nodes| ==> linked[i]
      modifies linked
      ensures AllCovered(g, Gone())
      ensures forall c: nat, u: nat :: c < |g.nodes| && u < |g.nodes| && linked[c] && linked[u] ==> !Repeats(g, c, u)
      ensures removed <==> Gone() != {}
    {
      hide Strict, Repeats, AllCovered, ValidChecks, ValidUsers, ValidDominators;
      removed := false;
      assert AllCovered(g, Gone()) by { NothingGone(g); assert Gone() == {}; }
      ghost var visited := [];
      var r := 0;
      while r < |rpo|
        invariant 0 <= r <= |rpo| && AllCovered(g, Gone()) && NoneRepeated(visited) && (removed <==> Gone() != {})
        invariant forall l, k :: 0 <= l < r && rpo[l] < |g.blocks| && 0 <= k < |g.blocks[rpo[l]]| ==> g.blocks[rpo[l]][k] in visited
      {
        assert rpo[r] in rpo;
        var ids := g.blocks[rpo[r]];
        var k := 0;
        while k < |ids|
          invariant 0 <= k <= |ids| && AllCovered(g, Gone()) && NoneRepeated(visited) && (removed <==> Gone() != {})
          invariant forall l, k :: 0 <= l < r && rpo[l] < |g.blocks| && 0 <= k < |g.blocks[rpo[l]]| ==> g.blocks[rpo[l]][k] in visited
          invariant forall l :: 0 <= l < k ==> ids[l] in visited
        {
          var current := ids[k];
          if linked[current] {
            ghost var before := Gone();
            var more := TryRemoveCheck(current);
            removed := removed || more;
            CoverStep(g, before, current, Gone());
            assert before <= Gone();
            if more {
              ghost var u: nat :| u < |g.nodes| && u !in before && !linked[u];
              assert u in Gone();
            } else {
              assert Gone() == before;
            }
          }
          visited := visited + [current];
          k := k + 1;
        }
        r := r + 1;
      }
      forall c: nat, u: nat | c < |g.nodes| && u < |g.nodes| && linked[c] && linked[u] ensures !Repeats(g, c, u) {
        EveryVisited(g, rpo, visited, c);
      }
    }
  }

  lemma SameOperand(g: Graph, check: nat, user: nat, v: nat)
    requires ValidGraph(g) && ValidChecks(g) && check < |g.nodes| && user < |g.nodes| && v in g.nodes[user].inputs
    requires g.nodes[check].inputs == [v] && g.nodes[user].kind == g.nodes[check].kind != Plain && g.nodes[user].kind != BoundsCheck
    ensures SameCheck(g, check, user)
  {
  }

  lemma ArrayFirst(g: Graph, check: nat, user: nat)
    requires ValidGraph(g) && ValidChecks(g) && check < |g.nodes| && user < |g.nodes|
    requires g.nodes[check].kind == BoundsCheck && g.nodes[user].kind == BoundsCheck
    requires |g.nodes[check].inputs| == 2 && g.nodes[check].inputs[0] in g.nodes[user].inputs
    ensures |g.nodes[user].inputs| == 2 && g.nodes[user].inputs[0] == g.nodes[check].inputs[0]
    ensures SameCheck(g, check, user) <==> g.nodes[user].inputs[1] == g.nodes[check].inputs[1]
  {
  }

  lemma RepeatsUse(g: Graph, check: nat, arr: nat, idx: nat, u: nat)
    requires ValidGraph(g) && check < |g.nodes| && u < |g.nodes| && Repeats(g, check, u) && g.nodes[check].inputs == [arr, idx]
    ensures arr in g.nodes[u].inputs
  {
    assert g.nodes[u].inputs[0] == arr;
  }

  lemma NothingGone(g: Graph)
    requires ValidGraph(g)
    ensures AllCovered(g, {})
  {
  }

  lemma EveryVisited(g: Graph, rpo: seq<nat>, visited: seq<nat>, c: nat)
    requires ValidGraph(g) && (forall b: nat :: b in rpo <==> b < |g.blocks|) && c < |g.nodes|
    requires forall l, k :: 0 <= l < |rpo| && rpo[l] < |g.blocks| && 0 <= k < |g.blocks[rpo[l]]| ==> g.blocks[rpo[l]][k] in visited
    ensures c in visited
  {
    var b := g.home[c];
    assert b in rpo && c in g.blocks[b];
  }
}
