/** Linear scan register allocation as steps on a value: expire, then spill or assign. */
module LinearScan {
  /** Live numbers of an interval, from `begin` up to `end`. */
  datatype Span = Span(begin: nat, end: nat)

  datatype Location = Nowhere | Register(r: nat) | Stack(slot: nat)

  const BITS := 64

  /** `active` holds interval numbers by increasing end; bit `r` of `bits` is set while register `r` is
      free; `takers` are the intervals that took over the register of a spilled one. */
  datatype Alloc = Alloc(active: seq<nat>, bits: seq<bool>, slots: nat, locs: seq<Location>, takers: set<nat>)

  /** The value the bits have when no register is free: the bits above the last register stay set. */
  predicate Full(bits: seq<bool>, regs: nat) { forall r :: 0 <= r < |bits| ==> bits[r] == (r >= regs) }

  /** Index of the least bit set, or -1. */
  function Lowest(bits: seq<bool>): (i: int)
    ensures -1 <= i < |bits|
    ensures i >= 0 ==> bits[i] && forall j :: 0 <= j < i ==> !bits[j]
    ensures i == -1 ==> forall j :: 0 <= j < |bits| ==> !bits[j]
  {
    if bits == [] then -1
    else if bits[0] then 0
    else
      var rest := Lowest(bits[1..]);
      if rest == -1 then -1 else rest + 1
  }

  // ----- What every state satisfies -----

  /** The intervals that occupy a register: the active ones, and those that took one over. */
  predicate IsOwner(st: Alloc, i: nat) { i in st.active || i in st.takers }

  /** Every interval visited has a location, the others have none. */
  predicate Shape(n: nat, regs: nat, st: Alloc, k: nat) {
    && |st.locs| == n && k <= n && regs <= BITS == |st.bits|
    && (forall r :: regs <= r < BITS ==> st.bits[r])
    && (forall i :: 0 <= i < n ==> (st.locs[i] == Nowhere <==> i >= k))
    && (forall i :: 0 <= i < n && st.locs[i].Register? ==> st.locs[i].r < regs)
  }

  /** Active intervals end in order. */
  predicate Sorted(spans: seq<Span>, active: seq<nat>) {
    && (forall a :: 0 <= a < |active| ==> active[a] < |spans|)
    && (forall a, b :: 0 <= a < b < |active| ==> spans[active[a]].end <= spans[active[b]].end)
  }

  predicate Distinct(st: Alloc) {
    && (forall a, b :: 0 <= a < b < |st.active| ==> st.active[a] != st.active[b])
    && (forall a :: 0 <= a < |st.active| ==> st.active[a] !in st.takers)
  }

  /** The registers that are not free are exactly those of the owners, one each. */
  ghost predicate Owning(st: Alloc, k: nat) {
    && (forall i: nat :: IsOwner(st, i) ==> i < k && k <= |st.locs| && st.locs[i].Register? && st.locs[i].r < |st.bits| && !st.bits[st.locs[i].r])
    && (forall i: nat, j: nat :: IsOwner(st, i) && IsOwner(st, j) && st.locs[i] == st.locs[j] ==> i == j)
    && (forall r :: 0 <= r < |st.bits| && !st.bits[r] ==> HasOwner(st, r))
  }

  predicate HasOwner(st: Alloc, r: nat) {
    exists i: nat :: i < |st.locs| && IsOwner(st, i) && st.locs[i] == Register(r)
  }

  /** Stack slots are given out once. */
  predicate SlotsApart(st: Alloc) {
    && (forall i :: 0 <= i < |st.locs| && st.locs[i].Stack? ==> st.locs[i].slot < st.slots)
    && (forall i, j :: 0 <= i < j < |st.locs| && st.locs[i].Stack? ==> st.locs[i] != st.locs[j])
  }

  /** Holds after `k` visits, whatever order the intervals come in. */
  ghost predicate Inv(spans: seq<Span>, regs: nat, st: Alloc, k: nat) {
    Shape(|spans|, regs, st, k) && Sorted(spans, st.active) && Distinct(st) && Owning(st, k) && SlotsApart(st)
  }

  // ----- The steps -----

  /** An active interval is where the expiry and the spilling expect it. */
  lemma ActiveHolds(spans: seq<Span>, regs: nat, st: Alloc, k: nat, a: nat)
    requires Inv(spans, regs, st, k) && a < |st.active|
    ensures var i := st.active[a]; i < k && i < |st.locs| && st.locs[i].Register? && st.locs[i].r < regs <= |st.bits|
  {
    assert IsOwner(st, st.active[a]);
  }

  /** The first active interval gives its register back. */
  function Released(st: Alloc): Alloc
    requires st.active != [] && st.active[0] < |st.locs|
    requires st.locs[st.active[0]].Register? && st.locs[st.active[0]].r < |st.bits|
  {
    st.(active := st.active[1..], bits := st.bits[st.locs[st.active[0]].r := true])
  }

  /** Frees the registers of the active intervals that end by `b`. */
  function Expire(spans: seq<Span>, regs: nat, st: Alloc, k: nat, b: nat): (e: Alloc)
    requires Inv(spans, regs, st, k)
    ensures Inv(spans, regs, e, k)
    decreases |st.active|
  {
    if st.active == [] || spans[st.active[0]].end > b then st
    else
      ActiveHolds(spans, regs, st, k, 0);
      ReleasedInv(spans, regs, st, k);
      Expire(spans, regs, Released(st), k, b)
  }

  /** Position before the first active interval that ends at `e` or later. */
  function Place(spans: seq<Span>, active: seq<nat>, e: nat): (p: nat)
    requires forall a :: 0 <= a < |active| ==> active[a] < |spans|
    ensures p <= |active| && (p < |active| ==> e <= spans[active[p]].end)
    ensures forall a :: 0 <= a < p ==> spans[active[a]].end < e
  {
    if active == [] || e <= spans[active[0]].end then 0 else 1 + Place(spans, active[1..], e)
  }

  /** A new interval goes to the stack. */
  function Kept(st: Alloc, k: nat): Alloc
    requires k < |st.locs|
  {
    st.(locs := st.locs[k := Stack(st.slots)], slots := st.slots + 1)
  }

  /** A new interval takes the register of the active one that ends last, which goes to the stack. */
  function Taken(st: Alloc, k: nat): Alloc
    requires st.active != [] && k < |st.locs| && st.active[|st.active| - 1] < |st.locs|
  {
    var last := st.active[|st.active| - 1];
    st.(locs := st.locs[last := Stack(st.slots)][k := st.locs[last]], slots := st.slots + 1,
        active := st.active[..|st.active| - 1], takers := st.takers + {k})
  }

  /** No register is free. */
  function Spill(spans: seq<Span>, st: Alloc, k: nat): Alloc
    requires |spans| == |st.locs| && k < |spans| && st.active != [] && st.active[|st.active| - 1] < |spans|
  {
    if spans[st.active[|st.active| - 1]].end < spans[k].end then Kept(st, k) else Taken(st, k)
  }

  /** Register `r` is taken. */
  function Assign(spans: seq<Span>, st: Alloc, k: nat, r: nat): Alloc
    requires |spans| == |st.locs| && k < |spans| && r < |st.bits| && Sorted(spans, st.active)
  {
    var p := Place(spans, st.active, spans[k].end);
    st.(locs := st.locs[k := Register(r)], bits := st.bits[r := false], active := st.active[..p] + [k] + st.active[p..])
  }

  /** Without an active interval to spill the source has no answer. */
  datatype Result = Done(st: Alloc) | NoVictim

  /** The visit of interval `k`. */
  function Visit(spans: seq<Span>, regs: nat, st: Alloc, k: nat): (res: Result)
    requires Inv(spans, regs, st, k) && k < |spans|
    ensures res.Done? ==> Inv(spans, regs, res.st, k + 1)
  {
    var e := Expire(spans, regs, st, k, spans[k].begin);
    if Full(e.bits, regs) then
      if e.active == [] then NoVictim
      else
        SpillInv(spans, regs, e, k);
        Done(Spill(spans, e, k))
    else
      LowestFree(spans, regs, e, k);
      AssignInv(spans, regs, e, k, Lowest(e.bits));
      Done(Assign(spans, e, k, Lowest(e.bits)))
  }

  function Initial(n: nat): Alloc { Alloc([], seq(BITS, _ => true), 0, seq(n, _ => Nowhere), {}) }

  /** The run over the first `k` intervals. */
  function Run(spans: seq<Span>, regs: nat, k: nat): (res: Result)
    requires k <= |spans| && regs <= BITS
    ensures res.Done? ==> Inv(spans, regs, res.st, k)
  {
    if k == 0 then
      Done(Initial(|spans|))
    else
      var before := Run(spans, regs, k - 1);
      if before.NoVictim? then NoVictim else Visit(spans, regs, before.st, k - 1)
  }

  // ----- Expiry -----

  lemma ReleasedOwners(st: Alloc)
    requires Distinct(st) && st.active != [] && st.active[0] < |st.locs|
    requires st.locs[st.active[0]].Register? && st.locs[st.active[0]].r < |st.bits|
    ensures forall i: nat :: IsOwner(Released(st), i) <==> IsOwner(st, i) && i != st.active[0]
  {
    assert st.active == [st.active[0]] + st.active[1..];
  }

  lemma ReleasedInv(spans: seq<Span>, regs: nat, st: Alloc, k: nat)
    requires Inv(spans, regs, st, k) && st.active != [] && st.active[0] < |st.locs|
    requires st.locs[st.active[0]].Register? && st.locs[st.active[0]].r < regs <= |st.bits|
    ensures Inv(spans, regs, Released(st), k)
  {
    ReleasedOwners(st);
    assert IsOwner(st, st.active[0]);
    var st', first := Released(st), st.locs[st.active[0]].r;
    hide IsOwner;
    forall r | 0 <= r < |st'.bits| && !st'.bits[r] ensures HasOwner(st', r) {
      assert HasOwner(st, r) && r != first;
    }
  }

  /** What expiry does: a prefix of the active intervals, all ended by `b`, is dropped; the rest ends later. */
  lemma {:induction false} ExpireFacts(spans: seq<Span>, regs: nat, st: Alloc, k: nat, b: nat)
    requires Inv(spans, regs, st, k)
    ensures var e := Expire(spans, regs, st, k, b); var d := |st.active| - |e.active|;
      && e.locs == st.locs && e.slots == st.slots && e.takers == st.takers
      && 0 <= d && e.active == st.active[d..] && (forall a :: 0 <= a < d ==> spans[st.active[a]].end <= b)
      && (forall a :: 0 <= a < |e.active| ==> spans[e.active[a]].end > b)
    decreases |st.active|
  {
    hide Shape, SlotsApart, Distinct, Owning;
    if st.active != [] && spans[st.active[0]].end <= b {
      ActiveHolds(spans, regs, st, k, 0);
      ReleasedInv(spans, regs, st, k);
      ExpireFacts(spans, regs, Released(st), k, b);
    }
  }

  // ----- Assignment -----

  lemma LowestFree(spans: seq<Span>, regs: nat, st: Alloc, k: nat)
    requires Inv(spans, regs, st, k) && !Full(st.bits, regs)
    ensures 0 <= Lowest(st.bits) < regs
  {
    hide Sorted, SlotsApart, Distinct, Owning;
  }

  lemma InsertedSorted(spans: seq<Span>, active: seq<nat>, k: nat)
    requires Sorted(spans, active) && k < |spans|
    ensures var p := Place(spans, active, spans[k].end); Sorted(spans, active[..p] + [k] + active[p..])
  {
  }

  lemma InsertedMembers(s: seq<nat>, p: nat, k: nat)
    requires p <= |s| && k !in s && forall a, b :: 0 <= a < b < |s| ==> s[a] != s[b]
    ensures var t := s[..p] + [k] + s[p..];
      (forall i :: i in t <==> i in s || i == k) && (forall a, b :: 0 <= a < b < |t| ==> t[a] != t[b])
  {
    var t := s[..p] + [k] + s[p..];
    forall a | 0 <= a < |t| ensures t[a] == if a < p then s[a] else if a == p then k else s[a - 1] {}
    forall i | i in s ensures i in t {
      var a :| 0 <= a < |s| && s[a] == i;
      assert t[if a < p then a else a + 1] == i;
    }
    assert t[p] == k;
  }

  lemma AssignedOwners(spans: seq<Span>, st: Alloc, k: nat, r: nat)
    requires |spans| == |st.locs| && k < |spans| && r < |st.bits| && Sorted(spans, st.active)
    requires Distinct(st) && k !in st.active && k !in st.takers
    ensures var st' := Assign(spans, st, k, r);
      Distinct(st') && (forall i: nat :: IsOwner(st', i) <==> IsOwner(st, i) || i == k) && |st'.active| == |st.active| + 1
  {
    InsertedMembers(st.active, Place(spans, st.active, spans[k].end), k);
  }

  lemma AssignInv(spans: seq<Span>, regs: nat, st: Alloc, k: nat, r: nat)
    requires Inv(spans, regs, st, k) && k < |spans| && r < regs && st.bits[r]
    ensures Inv(spans, regs, Assign(spans, st, k, r), k + 1)
  {
    assert !IsOwner(st, k);
    AssignedOwners(spans, st, k, r);
    InsertedSorted(spans, st.active, k);
    var st' := Assign(spans, st, k, r);
    hide IsOwner, Sorted, Distinct, Place;
    forall q | 0 <= q < |st'.bits| && !st'.bits[q] ensures HasOwner(st', q) {
      if q == r { assert IsOwner(st', k); } else { assert HasOwner(st, q); }
    }
  }

  // ----- Spilling -----

  lemma SpillInv(spans: seq<Span>, regs: nat, st: Alloc, k: nat)
    requires Inv(spans, regs, st, k) && k < |spans| && st.active != []
    ensures st.active[|st.active| - 1] < |spans| == |st.locs|
    ensures Inv(spans, regs, Spill(spans, st, k), k + 1)
  {
    hide Inv;
    ActiveIn(spans, regs, st, k);
    if spans[st.active[|st.active| - 1]].end < spans[k].end {
      KeptInv(spans, regs, st, k);
    } else {
      TakenInv(spans, regs, st, k);
    }
  }

  lemma ActiveIn(spans: seq<Span>, regs: nat, st: Alloc, k: nat)
    requires Inv(spans, regs, st, k) && st.active != []
    ensures st.active[|st.active| - 1] < |spans| == |st.locs|
  {
  }

  lemma KeptInv(spans: seq<Span>, regs: nat, st: Alloc, k: nat)
    requires Inv(spans, regs, st, k) && k < |spans|
    ensures Inv(spans, regs, Kept(st, k), k + 1)
  {
    var st' := Kept(st, k);
    assert forall i: nat :: IsOwner(st', i) <==> IsOwner(st, i);
    hide IsOwner;
    forall r | 0 <= r < |st'.bits| && !st'.bits[r] ensures HasOwner(st', r) {
      assert HasOwner(st, r);
    }
  }

  /** One owner goes, one comes. */
  lemma TakenOwners(st: Alloc, k: nat)
    requires Distinct(st) && k < |st.locs| && st.active != [] && st.active[|st.active| - 1] < |st.locs|
    requires k !in st.active && k !in st.takers
    ensures var st' := Taken(st, k); var last := st.active[|st.active| - 1];
      Distinct(st') && forall i: nat :: IsOwner(st', i) <==> (IsOwner(st, i) && i != last) || i == k
  {
    var n := |st.active| - 1;
    assert st.active == st.active[..n] + [st.active[n]];
  }

  lemma TakenInv(spans: seq<Span>, regs: nat, st: Alloc, k: nat)
    requires Inv(spans, regs, st, k) && k < |spans| && st.active != [] && st.active[|st.active| - 1] < |st.locs|
    ensures Inv(spans, regs, Taken(st, k), k + 1)
  {
    var st', n := Taken(st, k), |st.active| - 1;
    var last := st.active[n];
    assert !IsOwner(st, k) && IsOwner(st, last);
    TakenOwners(st, k);
    hide IsOwner, Distinct;
    forall r | 0 <= r < |st'.bits| && !st'.bits[r] ensures HasOwner(st', r) {
      assert HasOwner(st, r);
      var i: nat :| i < |st.locs| && IsOwner(st, i) && st.locs[i] == Register(r);
      if i == last { assert IsOwner(st', k); }
    }
  }
}
