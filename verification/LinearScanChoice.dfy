/** Which location the visit of an interval gives to whom: the lowest register that is free,
    or the interval that ends last goes to the stack. */
module LinearScanChoice {
  import opened LinearScan
  import opened LinearScanRegAlloc

  /** Interval `i` is active and has not ended where `k` begins. */
  predicate Alive(spans: seq<Span>, st: Alloc, k: nat, i: nat) {
    i in st.active && k < |spans| && i < |spans| && spans[i].end > spans[k].begin
  }

  /** Register `r` belongs to an active interval that has not ended, or was taken over. */
  predicate InUse(spans: seq<Span>, st: Alloc, k: nat, r: nat) {
    exists i: nat :: i < |st.locs| && st.locs[i] == Register(r) && (Alive(spans, st, k, i) || i in st.takers)
  }

  predicate AnyFree(spans: seq<Span>, regs: nat, st: Alloc, k: nat) { exists r: nat :: r < regs && !InUse(spans, st, k, r) }

  predicate AnyAlive(spans: seq<Span>, st: Alloc, k: nat) { exists i: nat :: i < |spans| && Alive(spans, st, k, i) }

  /** `v` ends no earlier than interval `k` and every interval that is still alive; `k` itself only when it ends
      later than all of them, and of several active ones the last in the list. */
  predicate EndsLast(spans: seq<Span>, st: Alloc, k: nat, v: nat) {
    && v < |spans| && k < |spans| && st.active != []
    && (forall i: nat :: i < |spans| && Alive(spans, st, k, i) ==> spans[i].end <= spans[v].end)
    && spans[k].end <= spans[v].end
    && (v == k ==> forall i: nat :: i < |spans| && Alive(spans, st, k, i) ==> spans[i].end < spans[k].end)
    && (v != k ==> Alive(spans, st, k, v) && v == st.active[|st.active| - 1])
  }

  /** Interval `v` goes to the next stack slot; unless it is `k` itself, `k` gets its register and keeps it. */
  predicate Spilled(st: Alloc, k: nat, v: nat, next: Alloc) {
    && v < |st.locs| && k < |st.locs| && next.slots == st.slots + 1
    && (v == k ==> next.locs == st.locs[k := Stack(st.slots)] && next.takers == st.takers)
    && (v != k ==> next.locs == st.locs[v := Stack(st.slots)][k := st.locs[v]] && next.takers == st.takers + {k})
  }

  /** Interval `k` gets the lowest register that is not in use. */
  predicate Assigned(spans: seq<Span>, regs: nat, st: Alloc, k: nat, r: nat, next: Alloc) {
    && r < regs && !InUse(spans, st, k, r) && (forall q: nat :: q < r ==> InUse(spans, st, k, q))
    && k < |st.locs| && next.locs == st.locs[k := Register(r)] && next.slots == st.slots && next.takers == st.takers
  }

  /** Who is active after `k` got a register of its own. */
  ghost predicate Joined(spans: seq<Span>, st: Alloc, k: nat, next: Alloc) {
    forall i: nat :: i in next.active <==> i == k || Alive(spans, st, k, i)
  }

  /** Who is active after `v` went to the stack. */
  ghost predicate Left(spans: seq<Span>, st: Alloc, k: nat, v: nat, next: Alloc) {
    forall i: nat :: i in next.active <==> i != v && Alive(spans, st, k, i)
  }

  lemma SuffixMembers(spans: seq<Span>, active: seq<nat>, d: nat, b: nat)
    requires d <= |active| && forall a :: 0 <= a < |active| ==> active[a] < |spans|
    requires forall a :: 0 <= a < |active| ==> (a < d <==> spans[active[a]].end <= b)
    ensures forall i: nat :: i in active[d..] <==> i in active && i < |spans| && spans[i].end > b
  {
    forall i: nat ensures i in active[d..] <==> i in active && i < |spans| && spans[i].end > b {
      if i in active[d..] {
        var a :| 0 <= a < |active| - d && active[d..][a] == i;
        assert active[d + a] == i;
      }
      if i in active && i < |spans| && spans[i].end > b {
        var a :| 0 <= a < |active| && active[a] == i;
        assert active[d..][a - d] == i;
      }
    }
  }

  lemma ActiveSorted(spans: seq<Span>, regs: nat, st: Alloc, k: nat)
    requires Inv(spans, regs, st, k)
    ensures Sorted(spans, st.active) && Distinct(st) && |st.locs| == |spans|
  {
  }

  lemma AliveAfter(spans: seq<Span>, regs: nat, st: Alloc, k: nat)
    requires Inv(spans, regs, st, k) && k < |spans|
    ensures var e := Expire(spans, regs, st, k, spans[k].begin);
      && (forall i: nat :: i in e.active <==> Alive(spans, st, k, i))
      && (e.active != [] ==> st.active != [] && e.active[|e.active| - 1] == st.active[|st.active| - 1])
  {
    hide Inv, Expire;
    var e := Expire(spans, regs, st, k, spans[k].begin);
    ActiveSorted(spans, regs, st, k);
    ExpireFacts(spans, regs, st, k, spans[k].begin);
    var d := |st.active| - |e.active|;
    forall a | 0 <= a < |st.active| ensures a < d <==> spans[st.active[a]].end <= spans[k].begin {
      if a >= d { assert st.active[a] == e.active[a - d]; }
    }
    SuffixMembers(spans, st.active, d, spans[k].begin);
  }

  lemma FreeAfter(spans: seq<Span>, regs: nat, st: Alloc, k: nat, r: nat)
    requires Inv(spans, regs, st, k) && k < |spans| && r < regs
    ensures var e := Expire(spans, regs, st, k, spans[k].begin);
      r < |e.bits| && (e.bits[r] <==> !InUse(spans, st, k, r))
  {
    var e := Expire(spans, regs, st, k, spans[k].begin);
    ExpireFacts(spans, regs, st, k, spans[k].begin);
    AliveAfter(spans, regs, st, k);
    hide Sorted, SlotsApart, Distinct, Alive;
    if InUse(spans, st, k, r) {
      var i: nat :| i < |st.locs| && st.locs[i] == Register(r) && (Alive(spans, st, k, i) || i in st.takers);
      assert IsOwner(e, i);
    }
    if !e.bits[r] {
      assert HasOwner(e, r);
    }
  }

  /** The register given out. */
  lemma VisitFree(spans: seq<Span>, regs: nat, st: Alloc, k: nat)
    requires Inv(spans, regs, st, k) && k < |spans|
    requires var e := Expire(spans, regs, st, k, spans[k].begin); !Full(e.bits, regs)
    ensures var res := Visit(spans, regs, st, k);
      res.Done? && exists r: nat :: Assigned(spans, regs, st, k, r, res.st) && Joined(spans, st, k, res.st)
  {
    hide Inv, Full, Lowest, InUse, Alive, Place, Sorted, Visit;
    var e := Expire(spans, regs, st, k, spans[k].begin);
    ExpireFacts(spans, regs, st, k, spans[k].begin);
    AliveAfter(spans, regs, st, k);
    VisitAssigns(spans, regs, st, k);
    LowestFree(spans, regs, e, k);
    var r: nat := Lowest(e.bits);
    forall q: nat | q <= r ensures InUse(spans, st, k, q) <==> q < r {
      FreeAfter(spans, regs, st, k, q);
    }
    AssignLocs(spans, e, k, r);
    var next := Visit(spans, regs, st, k).st;
    assert Assigned(spans, regs, st, k, r, next);
  }

  lemma AssignLocs(spans: seq<Span>, st: Alloc, k: nat, r: nat)
    requires |spans| == |st.locs| && k < |spans| && r < |st.bits| && Sorted(spans, st.active)
    ensures var next := Assign(spans, st, k, r);
      && next.locs == st.locs[k := Register(r)] && next.slots == st.slots && next.takers == st.takers
      && forall i: nat :: i in next.active <==> i == k || i in st.active
  {
    var p := Place(spans, st.active, spans[k].end);
    assert st.active == st.active[..p] + st.active[p..];
  }

  lemma NotVisited(spans: seq<Span>, regs: nat, st: Alloc, k: nat)
    requires Inv(spans, regs, st, k)
    ensures k !in st.active
  {
    if k in st.active {
      var a :| 0 <= a < |st.active| && st.active[a] == k;
      ActiveHolds(spans, regs, st, k, a);
    }
  }

  /** Spilling, on a state without ended intervals. */
  lemma SpillIs(spans: seq<Span>, e: Alloc, k: nat)
    requires |spans| == |e.locs| && k < |spans| && e.active != [] && e.active[|e.active| - 1] < |spans|
    requires k !in e.active && Distinct(e)
    ensures var last := e.active[|e.active| - 1];
      var v := if spans[last].end < spans[k].end then k else last;
      Spilled(e, k, v, Spill(spans, e, k)) && forall i: nat :: i in Spill(spans, e, k).active <==> i != v && i in e.active
  {
    var n := |e.active| - 1;
    assert e.active == e.active[..n] + [e.active[n]];
  }

  lemma LastEndsLast(spans: seq<Span>, st: Alloc, e: Alloc, k: nat, last: nat)
    requires k < |spans| && e.active != [] && last == e.active[|e.active| - 1] && last < |spans| && last != k
    requires Sorted(spans, e.active) && forall i: nat :: i in e.active <==> Alive(spans, st, k, i)
    requires st.active != [] && last == st.active[|st.active| - 1]
    ensures EndsLast(spans, st, k, if spans[last].end < spans[k].end then k else last)
  {
    hide Alive;
    assert last in e.active;
    forall i: nat | i in e.active ensures i < |spans| && spans[i].end <= spans[last].end {
      var a :| 0 <= a < |e.active| && e.active[a] == i;
    }
  }

  /** The interval sent to the stack. */
  lemma VisitFull(spans: seq<Span>, regs: nat, st: Alloc, k: nat)
    requires Inv(spans, regs, st, k) && k < |spans|
    requires var e := Expire(spans, regs, st, k, spans[k].begin); Full(e.bits, regs) && e.active != []
    ensures var res := Visit(spans, regs, st, k);
      res.Done? && exists v: nat ::
        EndsLast(spans, st, k, v) && Spilled(st, k, v, res.st) && Left(spans, st, k, v, res.st)
  {
    hide Full, Alive, Visit, Inv, Expire, EndsLast, Spill, Sorted, Distinct;
    var e := Expire(spans, regs, st, k, spans[k].begin);
    ExpireFacts(spans, regs, st, k, spans[k].begin);
    AliveAfter(spans, regs, st, k);
    VisitSpills(spans, regs, st, k);
    ActiveSorted(spans, regs, e, k);
    NotVisited(spans, regs, e, k);
    var last := e.active[|e.active| - 1];
    assert last in e.active;
    SpillIs(spans, e, k);
    LastEndsLast(spans, st, e, k, last);
    var v, next := if spans[last].end < spans[k].end then k else last, Spill(spans, e, k);
    assert EndsLast(spans, st, k, v) && Spilled(st, k, v, next) && Left(spans, st, k, v, next);
  }

  /** The visit, in terms of who is alive and which registers are in use. */
  lemma VisitChoice(spans: seq<Span>, regs: nat, st: Alloc, k: nat)
    requires Inv(spans, regs, st, k) && k < |spans|
    ensures var res := Visit(spans, regs, st, k);
      if AnyFree(spans, regs, st, k) then
        res.Done? && exists r: nat :: Assigned(spans, regs, st, k, r, res.st) && Joined(spans, st, k, res.st)
      else if !AnyAlive(spans, st, k) then res.NoVictim?
      else
        res.Done? && exists v: nat ::
          EndsLast(spans, st, k, v) && Spilled(st, k, v, res.st) && Left(spans, st, k, v, res.st)
  {
    hide Full, Inv, InUse, Alive, Visit, Assigned, Joined, EndsLast, Spilled, Left;
    var e := Expire(spans, regs, st, k, spans[k].begin);
    AliveAfter(spans, regs, st, k);
    FullAfter(spans, regs, st, k);
    if !Full(e.bits, regs) {
      VisitFree(spans, regs, st, k);
    } else {
      VisitSpills(spans, regs, st, k);
      if e.active != [] {
        assert e.active[0] in e.active;
        AliveInside(spans, st, k, e.active[0]);
        VisitFull(spans, regs, st, k);
      }
    }
  }

  lemma AliveInside(spans: seq<Span>, st: Alloc, k: nat, i: nat)
    ensures Alive(spans, st, k, i) ==> i < |spans|
  {
  }

  lemma FullAfter(spans: seq<Span>, regs: nat, st: Alloc, k: nat)
    requires Inv(spans, regs, st, k) && k < |spans|
    ensures var e := Expire(spans, regs, st, k, spans[k].begin);
      Full(e.bits, regs) <==> !AnyFree(spans, regs, st, k)
  {
    hide Inv, InUse, Alive;
    var e := Expire(spans, regs, st, k, spans[k].begin);
    UpperBits(spans, regs, e, k);
    forall r: nat | r < regs ensures r < |e.bits| && (e.bits[r] <==> !InUse(spans, st, k, r)) {
      FreeAfter(spans, regs, st, k, r);
    }
  }

  lemma UpperBits(spans: seq<Span>, regs: nat, st: Alloc, k: nat)
    requires Inv(spans, regs, st, k)
    ensures regs <= |st.bits| && forall r :: regs <= r < |st.bits| ==> st.bits[r]
  {
  }
}
