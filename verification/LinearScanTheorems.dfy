/** What linear scan guarantees, for each of the two orders the intervals may come in. */
module LinearScanTheorems {
  import opened LinearScan

  /** The registers that are not free. */
  function HeldRegs(st: Alloc): set<nat> { set r: nat | r < |st.bits| && !st.bits[r] }

  function Elements(s: seq<nat>): (e: set<nat>)
    ensures forall i :: i in e <==> i in s
    ensures (forall a, b :: 0 <= a < b < |s| ==> s[a] != s[b]) ==> |e| == |s|
  {
    if s == [] then {}
    else
      var n := |s| - 1;
      assert s == s[..n] + [s[n]];
      Elements(s[..n]) + {s[n]}
  }

  function Owners(st: Alloc): set<nat> { Elements(st.active) + st.takers }

  predicate HasIn(own: set<nat>, locs: seq<Location>, r: nat) {
    exists i :: i in own && i < |locs| && locs[i] == Register(r)
  }

  /** Intervals in one register each are as many as their registers. */
  lemma {:induction false} OneToOne(own: set<nat>, held: set<nat>, locs: seq<Location>)
    requires forall i :: i in own ==> i < |locs| && locs[i].Register? && locs[i].r in held
    requires forall i, j :: i in own && j in own && locs[i] == locs[j] ==> i == j
    requires forall r :: r in held ==> HasIn(own, locs, r)
    ensures |own| == |held|
    decreases |held|
  {
    if held != {} {
      var r :| r in held;
      assert HasIn(own, locs, r);
      var x :| x in own && x < |locs| && locs[x] == Register(r);
      var own', held' := own - {x}, held - {r};
      forall q | q in held' ensures HasIn(own', locs, q) {
        assert HasIn(own, locs, q);
      }
      OneToOne(own', held', locs);
    } else {
      assert own == {};
    }
  }

  /** The registers in use are those of the active intervals and of the takers, counted once. */
  lemma HeldCount(spans: seq<Span>, regs: nat, st: Alloc, k: nat)
    requires Inv(spans, regs, st, k)
    ensures |st.active| + |st.takers| == |HeldRegs(st)|
  {
    hide Inv, Owners;
    OwnerCount(spans, regs, st, k);
    OwnersHold(spans, regs, st, k);
    OneToOne(Owners(st), HeldRegs(st), st.locs);
  }

  lemma OwnerCount(spans: seq<Span>, regs: nat, st: Alloc, k: nat)
    requires Inv(spans, regs, st, k)
    ensures |Owners(st)| == |st.active| + |st.takers|
  {
    hide Shape, Sorted, SlotsApart, Owning, Elements;
    ApartCount(st.active, st.takers);
  }

  lemma ApartCount(active: seq<nat>, takers: set<nat>)
    requires forall a, b :: 0 <= a < b < |active| ==> active[a] != active[b]
    requires forall a :: 0 <= a < |active| ==> active[a] !in takers
    ensures |Elements(active) + takers| == |active| + |takers|
  {
    var e := Elements(active);
    hide Elements;
    assert e !! takers;
  }

  lemma OwnersHold(spans: seq<Span>, regs: nat, st: Alloc, k: nat)
    requires Inv(spans, regs, st, k)
    ensures forall i :: i in Owners(st) ==> i < |st.locs| && st.locs[i].Register? && st.locs[i].r in HeldRegs(st)
    ensures forall i, j :: i in Owners(st) && j in Owners(st) && st.locs[i] == st.locs[j] ==> i == j
    ensures forall r :: r in HeldRegs(st) ==> HasIn(Owners(st), st.locs, r)
  {
    hide Shape, Sorted, SlotsApart, Distinct;
    assert forall i: nat :: i in Owners(st) <==> IsOwner(st, i);
    hide IsOwner, Owners;
    forall r | r in HeldRegs(st) ensures HasIn(Owners(st), st.locs, r) {
      assert HasOwner(st, r);
    }
  }

  /** The numbers below `n`. */
  function Below(n: nat): (s: set<nat>)
    ensures |s| == n && forall r: nat :: r in s <==> r < n
  {
    if n == 0 then {} else Below(n - 1) + {n - 1}
  }

  lemma {:induction false} SubsetAtMost(a: set<nat>, b: set<nat>)
    requires a <= b
    ensures |a| <= |b|
    decreases |a|
  {
    if a != {} {
      var x :| x in a;
      SubsetAtMost(a - {x}, b - {x});
    }
  }

  lemma ProperSmaller(a: set<nat>, b: set<nat>, x: nat)
    requires a <= b && x in b && x !in a
    ensures |a| < |b|
  {
    SubsetAtMost(a, b - {x});
  }

  /** No register is free exactly when as many are in use as there are. */
  lemma FullIff(spans: seq<Span>, regs: nat, st: Alloc, k: nat)
    requires Inv(spans, regs, st, k)
    ensures |HeldRegs(st)| <= regs
    ensures Full(st.bits, regs) <==> |HeldRegs(st)| == regs
  {
    hide Sorted, SlotsApart, Distinct, Owning;
    var all := Below(regs);
    assert HeldRegs(st) <= all;
    SubsetAtMost(HeldRegs(st), all);
    if |HeldRegs(st)| == regs {
      forall r: nat | r < regs ensures !st.bits[r] {
        if st.bits[r] { ProperSmaller(HeldRegs(st), all, r); }
      }
    }
    if Full(st.bits, regs) {
      assert HeldRegs(st) == all;
    }
  }

  /** Exactly when there is no interval to spill: every register was taken over. */
  lemma NoVictimIff(spans: seq<Span>, regs: nat, st: Alloc, k: nat)
    requires Inv(spans, regs, st, k) && k < |spans|
    ensures Visit(spans, regs, st, k).NoVictim? <==> |st.takers| == regs
  {
    hide Inv, Full, HeldRegs;
    var e := Expire(spans, regs, st, k, spans[k].begin);
    ExpireFacts(spans, regs, st, k, spans[k].begin);
    HeldCount(spans, regs, e, k);
    FullIff(spans, regs, e, k);
  }

  /** After `k` visits every register belongs to an interval that took it over. */
  predicate AllTakenOver(spans: seq<Span>, regs: nat, k: nat)
    requires k <= |spans| && regs <= BITS
  {
    Run(spans, regs, k).Done? && |Run(spans, regs, k).st.takers| == regs
  }

  /** The run fails exactly when some visit finds every register taken over. */
  lemma {:induction false} RunFailsIff(spans: seq<Span>, regs: nat, n: nat)
    requires n <= |spans| && regs <= BITS
    ensures Run(spans, regs, n).NoVictim? <==> exists k: nat :: k < n && AllTakenOver(spans, regs, k)
  {
    hide Inv, Visit;
    if n > 0 {
      RunFailsIff(spans, regs, n - 1);
      if Run(spans, regs, n - 1).Done? {
        NoVictimIff(spans, regs, Run(spans, regs, n - 1).st, n - 1);
        assert Run(spans, regs, n).NoVictim? <==> AllTakenOver(spans, regs, n - 1);
      }
    }
  }

  // ----- Increasing order of begins -----

  predicate Ascending(spans: seq<Span>) { forall i, j :: 0 <= i < j < |spans| ==> spans[i].begin <= spans[j].begin }

  predicate Overlap(x: Span, y: Span) { x.begin < y.end && y.begin < x.end }

  /** Where the scan is: the begin of the interval visited last. */
  function Now(spans: seq<Span>, k: nat): nat
    requires k <= |spans|
  {
    if k == 0 then 0 else spans[k - 1].begin
  }

  /** Intervals that gave their register back ended by `now`. */
  predicate Past(spans: seq<Span>, st: Alloc, k: nat, now: nat) {
    forall i :: 0 <= i < k && k <= |spans| == |st.locs| && st.locs[i].Register? && !IsOwner(st, i) ==> spans[i].end <= now
  }

  /** Intervals in one location do not overlap. */
  predicate Exclusive(spans: seq<Span>, st: Alloc, k: nat) {
    forall i, j :: 0 <= i < j < k && k <= |spans| == |st.locs| && st.locs[i] == st.locs[j] ==> spans[i].end <= spans[j].begin
  }

  lemma {:induction false} ExpirePast(spans: seq<Span>, regs: nat, st: Alloc, k: nat, b: nat)
    requires Inv(spans, regs, st, k) && Past(spans, st, k, b)
    ensures Past(spans, Expire(spans, regs, st, k, b), k, b)
    decreases |st.active|
  {
    hide Shape, SlotsApart, Owning, IsOwner;
    if st.active != [] && spans[st.active[0]].end <= b {
      ActiveHolds(spans, regs, st, k, 0);
      ActiveIn(spans, regs, st, k);
      ReleasedInv(spans, regs, st, k);
      ReleasedNow(spans, st, k, b);
      ExpirePast(spans, regs, Released(st), k, b);
    }
  }

  lemma ReleasedNow(spans: seq<Span>, st: Alloc, k: nat, b: nat)
    requires Distinct(st) && Past(spans, st, k, b) && st.active != [] && st.active[0] < |st.locs| == |spans|
    requires st.locs[st.active[0]].Register? && st.locs[st.active[0]].r < |st.bits| && spans[st.active[0]].end <= b
    ensures Past(spans, Released(st), k, b)
  {
    ReleasedOwners(st);
  }

  lemma AssignPast(spans: seq<Span>, regs: nat, st: Alloc, k: nat, r: nat, b: nat)
    requires Inv(spans, regs, st, k) && k < |spans| && r < regs && st.bits[r] && b == spans[k].begin
    requires Past(spans, st, k, b) && Exclusive(spans, st, k)
    ensures Past(spans, Assign(spans, st, k, r), k + 1, b) && Exclusive(spans, Assign(spans, st, k, r), k + 1)
  {
    assert !IsOwner(st, k);
    AssignedOwners(spans, st, k, r);
    hide Sorted, Distinct, Place, IsOwner, SlotsApart;
  }

  lemma KeptPast(spans: seq<Span>, regs: nat, st: Alloc, k: nat, b: nat)
    requires Inv(spans, regs, st, k) && k < |spans| && b == spans[k].begin
    requires Past(spans, st, k, b) && Exclusive(spans, st, k)
    ensures Past(spans, Kept(st, k), k + 1, b) && Exclusive(spans, Kept(st, k), k + 1)
  {
    assert forall i: nat :: IsOwner(Kept(st, k), i) <==> IsOwner(st, i);
    hide Sorted, Distinct, IsOwner, Owning;
  }

  lemma TakenPast(spans: seq<Span>, regs: nat, st: Alloc, k: nat, b: nat)
    requires Inv(spans, regs, st, k) && k < |spans| && b == spans[k].begin
    requires st.active != [] && st.active[|st.active| - 1] < |st.locs|
    requires Past(spans, st, k, b) && Exclusive(spans, st, k)
    ensures Past(spans, Taken(st, k), k + 1, b) && Exclusive(spans, Taken(st, k), k + 1)
  {
    var last := st.active[|st.active| - 1];
    assert !IsOwner(st, k) && IsOwner(st, last);
    TakenOwners(st, k);
    hide Sorted, Distinct, IsOwner;
  }

  lemma VisitPast(spans: seq<Span>, regs: nat, st: Alloc, k: nat)
    requires Inv(spans, regs, st, k) && k < |spans|
    requires Past(spans, st, k, spans[k].begin) && Exclusive(spans, st, k)
    ensures var res := Visit(spans, regs, st, k);
      res.Done? ==> Past(spans, res.st, k + 1, spans[k].begin) && Exclusive(spans, res.st, k + 1)
  {
    hide Inv, Past, Exclusive;
    var b := spans[k].begin;
    var e := Expire(spans, regs, st, k, b);
    ExpirePast(spans, regs, st, k, b);
    ExpireFacts(spans, regs, st, k, b);
    SameExclusive(spans, st, e, k);
    if Full(e.bits, regs) {
      if e.active != [] {
        ActiveIn(spans, regs, e, k);
        KeptPast(spans, regs, e, k, b);
        TakenPast(spans, regs, e, k, b);
      }
    } else {
      LowestFree(spans, regs, e, k);
      AssignPast(spans, regs, e, k, Lowest(e.bits), b);
    }
  }

  lemma SameExclusive(spans: seq<Span>, st: Alloc, e: Alloc, k: nat)
    requires Exclusive(spans, st, k) && e.locs == st.locs
    ensures Exclusive(spans, e, k)
  {
  }

  lemma {:induction false} AscendingSafe(spans: seq<Span>, regs: nat, k: nat)
    requires Ascending(spans) && k <= |spans| && regs <= BITS && Run(spans, regs, k).Done?
    ensures var st := Run(spans, regs, k).st; Past(spans, st, k, Now(spans, k)) && Exclusive(spans, st, k)
  {
    hide Inv, Visit;
    if k > 0 {
      AscendingSafe(spans, regs, k - 1);
      VisitPast(spans, regs, Run(spans, regs, k - 1).st, k - 1);
    }
  }

  /** For intervals in order of their begins, overlapping intervals get different locations. */
  lemma {:induction false} OverlappingApart(spans: seq<Span>, regs: nat, k: nat, i: nat, j: nat)
    requires Ascending(spans) && k <= |spans| && regs <= BITS && Run(spans, regs, k).Done?
    requires i < k && j < k && i != j && Overlap(spans[i], spans[j])
    ensures Run(spans, regs, k).st.locs[i] != Run(spans, regs, k).st.locs[j]
  {
    hide Run, Past;
    AscendingSafe(spans, regs, k);
  }

  // ----- Decreasing order -----

  predicate Descending(spans: seq<Span>) { forall i, j :: 0 <= i < j < |spans| ==> spans[i].begin >= spans[j].begin }

  predicate NonEmpty(spans: seq<Span>) { forall i :: 0 <= i < |spans| ==> spans[i].begin < spans[i].end }

  /** Decreasing begins, apart from empty intervals, which lie at zero wherever they stand. */
  predicate Falling(spans: seq<Span>) {
    && (forall i :: 0 <= i < |spans| ==> spans[i].begin < spans[i].end || spans[i] == Span(0, 0))
    && forall i, j :: 0 <= i < j < |spans| && spans[i] != Span(0, 0) ==> spans[i].begin >= spans[j].begin
  }

  /** Whoever has a register and is not empty still occupies it. */
  predicate NoneReleased(spans: seq<Span>, st: Alloc) {
    |st.locs| == |spans| && forall i :: 0 <= i < |spans| && st.locs[i].Register? && spans[i] != Span(0, 0) ==> IsOwner(st, i)
  }

  /** No two intervals that are not empty share a location. */
  predicate AllApart(spans: seq<Span>, st: Alloc, k: nat) {
    forall i, j :: 0 <= i < j < k && k <= |st.locs| == |spans| && spans[i] != Span(0, 0) && spans[j] != Span(0, 0) ==>
      st.locs[i] != st.locs[j]
  }

  /** Only empty intervals expire. */
  lemma ExpiryKeeps(spans: seq<Span>, regs: nat, st: Alloc, k: nat)
    requires Falling(spans) && Inv(spans, regs, st, k) && k < |spans| && NoneReleased(spans, st)
    ensures NoneReleased(spans, Expire(spans, regs, st, k, spans[k].begin))
  {
    var e := Expire(spans, regs, st, k, spans[k].begin);
    ExpireFacts(spans, regs, st, k, spans[k].begin);
    forall i: nat | i < |spans| && e.locs[i].Register? && spans[i] != Span(0, 0) ensures IsOwner(e, i) {
      assert IsOwner(st, i);
      if i in st.active { StillActive(spans, regs, st, e, k, i); }
    }
  }

  lemma StillActive(spans: seq<Span>, regs: nat, st: Alloc, e: Alloc, k: nat, i: nat)
    requires Falling(spans) && Inv(spans, regs, st, k) && k < |spans| && i in st.active && i < |spans| && spans[i] != Span(0, 0)
    requires |e.active| <= |st.active| && e.active == st.active[|st.active| - |e.active|..]
    requires forall a :: 0 <= a < |st.active| - |e.active| ==>
      st.active[a] < |spans| && spans[st.active[a]].end <= spans[k].begin
    ensures i in e.active
  {
    var a :| 0 <= a < |st.active| && st.active[a] == i;
    ActiveHolds(spans, regs, st, k, a);
    var d := |st.active| - |e.active|;
    assert a >= d && e.active[a - d] == i;
  }

  lemma SpillKeepsAll(spans: seq<Span>, regs: nat, e: Alloc, k: nat)
    requires Inv(spans, regs, e, k) && k < |spans| && NoneReleased(spans, e) && e.active != []
    ensures e.active[|e.active| - 1] < |spans| == |e.locs| && NoneReleased(spans, Spill(spans, e, k))
  {
    assert !IsOwner(e, k);
    ActiveIn(spans, regs, e, k);
    TakenOwners(e, k);
    assert forall i: nat :: IsOwner(Kept(e, k), i) <==> IsOwner(e, i);
    hide IsOwner, Owning, Sorted, SlotsApart, Distinct;
  }

  lemma AssignKeepsAll(spans: seq<Span>, regs: nat, e: Alloc, k: nat, r: nat)
    requires Inv(spans, regs, e, k) && k < |spans| && NoneReleased(spans, e) && r < |e.bits|
    ensures Sorted(spans, e.active) && NoneReleased(spans, Assign(spans, e, k, r))
  {
    assert !IsOwner(e, k);
    AssignedOwners(spans, e, k, r);
    hide IsOwner, Owning, Sorted, SlotsApart, Distinct, Place;
  }

  lemma VisitKeepsAll(spans: seq<Span>, regs: nat, st: Alloc, k: nat)
    requires Falling(spans) && Inv(spans, regs, st, k) && k < |spans| && NoneReleased(spans, st)
    ensures var res := Visit(spans, regs, st, k); res.Done? ==> NoneReleased(spans, res.st)
  {
    hide Inv, Falling, Full, NoneReleased, Spill, Assign, Expire;
    var e := Expire(spans, regs, st, k, spans[k].begin);
    ExpiryKeeps(spans, regs, st, k);
    if Full(e.bits, regs) {
      if e.active != [] { SpillKeepsAll(spans, regs, e, k); }
    } else {
      LowestFree(spans, regs, e, k);
      AssignKeepsAll(spans, regs, e, k, Lowest(e.bits));
    }
  }

  lemma {:induction false} DescendingKeeps(spans: seq<Span>, regs: nat, k: nat)
    requires Falling(spans) && k <= |spans| && regs <= BITS && Run(spans, regs, k).Done?
    ensures NoneReleased(spans, Run(spans, regs, k).st)
  {
    hide Inv, Visit, Falling;
    if k > 0 {
      DescendingKeeps(spans, regs, k - 1);
      VisitKeepsAll(spans, regs, Run(spans, regs, k - 1).st, k - 1);
    }
  }

  /** The order the container really iterates in: a register that an interval got does not come back unless the
      interval is empty, so that all others have locations of their own. */
  lemma {:induction false} DescendingApart(spans: seq<Span>, regs: nat, k: nat)
    requires Falling(spans) && k <= |spans| && regs <= BITS && Run(spans, regs, k).Done?
    ensures AllApart(spans, Run(spans, regs, k).st, k)
  {
    hide Falling;
    DescendingKeeps(spans, regs, k);
    OwnersApart(spans, regs, Run(spans, regs, k).st, k);
  }

  lemma OwnersApart(spans: seq<Span>, regs: nat, st: Alloc, k: nat)
    requires Inv(spans, regs, st, k) && NoneReleased(spans, st)
    ensures AllApart(spans, st, k)
  {
    hide IsOwner;
  }

  lemma NoExpiry(spans: seq<Span>, regs: nat, st: Alloc, k: nat)
    requires Descending(spans) && NonEmpty(spans) && Inv(spans, regs, st, k) && k < |spans|
    ensures Expire(spans, regs, st, k, spans[k].begin) == st
  {
    if st.active != [] { ActiveHolds(spans, regs, st, k, 0); }
  }

  lemma NoExpiryNow(spans: seq<Span>, regs: nat, st: Alloc, k: nat)
    requires Descending(spans) && NonEmpty(spans) && Inv(spans, regs, st, k) && k < |spans|
    ensures Full(st.bits, regs) ==> var res := Visit(spans, regs, st, k);
      res.NoVictim? || (Full(res.st.bits, regs) && res.st.slots == st.slots + 1
                        && |res.st.active| + |res.st.takers| == |st.active| + |st.takers|)
    ensures !Full(st.bits, regs) ==> var res := Visit(spans, regs, st, k);
      res.Done? && res.st.slots == st.slots && |res.st.active| + |res.st.takers| == |st.active| + |st.takers| + 1
  {
    NoExpiry(spans, regs, st, k);
    assert !IsOwner(st, k);
    if Full(st.bits, regs) {
    } else {
      LowestFree(spans, regs, st, k);
      AssignedOwners(spans, st, k, Lowest(st.bits));
    }
  }

  /** In that order the first `regs` intervals use up the registers and every later one costs a stack slot,
      whether or not any two intervals overlap. */
  lemma {:induction false} DescendingSlots(spans: seq<Span>, regs: nat, k: nat)
    requires Descending(spans) && NonEmpty(spans) && k <= |spans| && regs <= BITS && Run(spans, regs, k).Done?
    ensures Run(spans, regs, k).st.slots == if k <= regs then 0 else k - regs
  {
    SlotBalance(spans, regs, k);
    var st := Run(spans, regs, k).st;
    HeldCount(spans, regs, st, k);
    FullIff(spans, regs, st, k);
  }

  lemma {:induction false} SlotBalance(spans: seq<Span>, regs: nat, k: nat)
    requires Descending(spans) && NonEmpty(spans) && k <= |spans| && regs <= BITS && Run(spans, regs, k).Done?
    ensures var st := Run(spans, regs, k).st;
      |st.active| + |st.takers| + st.slots == k && (st.slots > 0 ==> Full(st.bits, regs))
  {
    hide Inv, Visit, Full;
    if k > 0 {
      SlotBalance(spans, regs, k - 1);
      NoExpiryNow(spans, regs, Run(spans, regs, k - 1).st, k - 1);
    }
  }

  // ----- Enough registers -----

  /** The intervals live at `p`. */
  function Live(spans: seq<Span>, p: nat): set<nat> { set i: nat | i < |spans| && spans[i].begin <= p < spans[i].end }

  /** Never more than `regs` intervals are live where one begins. */
  predicate Fits(spans: seq<Span>, regs: nat) { forall i :: 0 <= i < |spans| ==> |Live(spans, spans[i].begin)| <= regs }

  lemma ActiveLive(spans: seq<Span>, regs: nat, st: Alloc, k: nat)
    requires Ascending(spans) && NonEmpty(spans) && Inv(spans, regs, st, k) && k < |spans|
    ensures |Expire(spans, regs, st, k, spans[k].begin).active| < |Live(spans, spans[k].begin)|
  {
    var b := spans[k].begin;
    var e := Expire(spans, regs, st, k, b);
    ExpireFacts(spans, regs, st, k, b);
    forall i | i in Elements(e.active) ensures i in Live(spans, b) && i < k {
      var a :| 0 <= a < |e.active| && e.active[a] == i;
      ActiveHolds(spans, regs, e, k, a);
    }
    ActiveCount(spans, regs, e, k);
    ProperSmaller(Elements(e.active), Live(spans, b), k);
  }

  lemma ActiveCount(spans: seq<Span>, regs: nat, st: Alloc, k: nat)
    requires Inv(spans, regs, st, k)
    ensures |Elements(st.active)| == |st.active|
  {
  }

  lemma VisitFits(spans: seq<Span>, regs: nat, st: Alloc, k: nat)
    requires Ascending(spans) && NonEmpty(spans) && Fits(spans, regs) && Inv(spans, regs, st, k) && k < |spans|
    requires st.takers == {} && st.slots == 0
    ensures var res := Visit(spans, regs, st, k); res.Done? && res.st.takers == {} && res.st.slots == 0
  {
    hide Inv, Full, HeldRegs, Live;
    var e := Expire(spans, regs, st, k, spans[k].begin);
    ExpireFacts(spans, regs, st, k, spans[k].begin);
    ActiveLive(spans, regs, st, k);
    HeldCount(spans, regs, e, k);
    FullIff(spans, regs, e, k);
  }

  lemma {:induction false} FitsRun(spans: seq<Span>, regs: nat, k: nat)
    requires Ascending(spans) && NonEmpty(spans) && Fits(spans, regs) && k <= |spans| && regs <= BITS
    ensures var res := Run(spans, regs, k); res.Done? && res.st.takers == {} && res.st.slots == 0
  {
    hide Inv, Visit;
    if k > 0 {
      FitsRun(spans, regs, k - 1);
      VisitFits(spans, regs, Run(spans, regs, k - 1).st, k - 1);
    }
  }

  /** In order of begins nothing is spilled as long as the registers suffice. */
  lemma {:induction false} NothingSpilled(spans: seq<Span>, regs: nat, i: nat)
    requires Ascending(spans) && NonEmpty(spans) && Fits(spans, regs) && i < |spans| && regs <= BITS
    ensures Run(spans, regs, |spans|).Done? && Run(spans, regs, |spans|).st.locs[i].Register?
  {
    hide Fits, Run;
    FitsRun(spans, regs, |spans|);
    var st := Run(spans, regs, |spans|).st;
    assert Shape(|spans|, regs, st, |spans|) && SlotsApart(st);
  }
}
