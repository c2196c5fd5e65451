/** The live ranges of one value: a vector filled from the last range to the first. */
module LiveRanges {
  /** Positions from `begin` up to `end`. */
  datatype LiveRange = LiveRange(begin: nat, end: nat)

  const STEP := 2

  /** Later ranges come first, and there is a gap between any two. */
  predicate Ordered(rs: seq<LiveRange>) {
    && (forall k :: 0 <= k < |rs| ==> rs[k].begin < rs[k].end)
    && (forall k, l :: 0 <= k < l < |rs| ==> rs[l].end < rs[k].begin)
  }

  predicate Covers(rs: seq<LiveRange>, p: nat) { exists k :: 0 <= k < |rs| && rs[k].begin <= p < rs[k].end }

  function Earliest(rs: seq<LiveRange>): LiveRange
    requires rs != []
  {
    rs[|rs| - 1]
  }

  /** Adding a range either extends the earliest one to the left, puts a new one before it, or changes nothing. */
  function AddRange(rs: seq<LiveRange>, r: LiveRange): seq<LiveRange> {
    if rs == [] then [r]
    else if r.end == Earliest(rs).begin then rs[|rs| - 1 := LiveRange(r.begin, Earliest(rs).end)]
    else if r.end <= Earliest(rs).begin then rs + [r]
    else rs
  }

  /** The assertions of the source while adding: a range that changes nothing lies in the earliest one. */
  predicate AddOk(rs: seq<LiveRange>, r: LiveRange) {
    && r.begin <= r.end
    && (rs != [] && r.end == Earliest(rs).begin ==> r.begin < Earliest(rs).end)
    && (rs != [] && r.end > Earliest(rs).begin ==> Earliest(rs).begin <= r.begin && r.end <= Earliest(rs).end)
  }

  /** The definition has been reached. */
  function SetBegin(rs: seq<LiveRange>, b: nat): seq<LiveRange> {
    if rs == [] then [LiveRange(b, b + STEP)] else rs[|rs| - 1 := LiveRange(b, Earliest(rs).end)]
  }

  predicate SetOk(rs: seq<LiveRange>, b: nat) { rs == [] || b < Earliest(rs).end }

  /** A range that starts before everything covered, or lies in it, is added without failing an assertion,
      and exactly its positions are added. */
  lemma AddCovers(rs: seq<LiveRange>, r: LiveRange)
    requires Ordered(rs) && r.begin < r.end
    requires rs == [] || r.end <= Earliest(rs).begin || (Earliest(rs).begin <= r.begin && r.end <= Earliest(rs).end)
    ensures AddOk(rs, r) && Ordered(AddRange(rs, r))
    ensures forall p: nat :: Covers(AddRange(rs, r), p) <==> Covers(rs, p) || r.begin <= p < r.end
  {
    var rs' := AddRange(rs, r);
    forall p: nat ensures Covers(rs', p) <==> Covers(rs, p) || r.begin <= p < r.end {
      if rs != [] { LastOrEarlier(rs, p); }
      LastOrEarlier(rs', p);
      if rs' == rs + [r] { assert rs'[..|rs|] == rs; }
      if rs != [] && |rs'| == |rs| { assert rs'[..|rs| - 1] == rs[..|rs| - 1]; }
    }
  }

  lemma LastOrEarlier(rs: seq<LiveRange>, p: nat)
    requires rs != []
    ensures Covers(rs, p) <==> Covers(rs[..|rs| - 1], p) || Earliest(rs).begin <= p < Earliest(rs).end
  {
    var n := |rs| - 1;
    if Covers(rs[..n], p) {
      var k :| 0 <= k < n && rs[..n][k].begin <= p < rs[..n][k].end;
      assert rs[k].begin <= p < rs[k].end;
    }
    if Covers(rs, p) && !(rs[n].begin <= p < rs[n].end) {
      var k :| 0 <= k < |rs| && rs[k].begin <= p < rs[k].end;
      assert rs[..n][k] == rs[k];
    }
  }

  /** Setting the begin inside the earliest range cuts off what is before it. */
  lemma SetCovers(rs: seq<LiveRange>, b: nat)
    requires Ordered(rs) && (rs == [] || Earliest(rs).begin <= b < Earliest(rs).end)
    ensures SetOk(rs, b) && Ordered(SetBegin(rs, b))
    ensures forall p: nat :: Covers(SetBegin(rs, b), p) <==>
      if rs == [] then b <= p < b + STEP else Covers(rs, p) && p >= b
  {
    var rs', n := SetBegin(rs, b), |rs| - 1;
    forall p: nat ensures Covers(rs', p) <==> if rs == [] then b <= p < b + STEP else Covers(rs, p) && p >= b {
      if Covers(rs', p) {
        var k :| 0 <= k < |rs'| && rs'[k].begin <= p < rs'[k].end;
        if rs != [] { assert rs[k].begin <= p < rs[k].end; }
      }
      if rs == [] && b <= p < b + STEP {
        assert rs'[0].begin <= p < rs'[0].end;
      }
      if rs != [] && Covers(rs, p) && p >= b {
        var k :| 0 <= k < |rs| && rs[k].begin <= p < rs[k].end;
        assert rs'[k].begin <= p < rs'[k].end;
      }
    }
  }

  /** If nothing before `lo` is covered and all of `lo` up to `hi` is, the earliest range starts at `lo`
      and reaches to `hi`. */
  lemma {:induction false} EarliestIs(rs: seq<LiveRange>, lo: nat, hi: nat)
    requires Ordered(rs) && lo < hi
    requires forall p: nat :: p < lo ==> !Covers(rs, p)
    requires forall p: nat :: lo <= p < hi ==> Covers(rs, p)
    ensures rs != [] && Earliest(rs).begin == lo && hi <= Earliest(rs).end
  {
    assert Covers(rs, lo);
    var k :| 0 <= k < |rs| && rs[k].begin <= lo < rs[k].end;
    if rs[k].begin < lo {
      assert rs[k].begin <= lo - 1 < rs[k].end;
      assert Covers(rs, lo - 1);
    }
    EarliestCovered(rs);
    EndNotCovered(rs);
  }

  /** The gap after the earliest range. */
  lemma EndNotCovered(rs: seq<LiveRange>)
    requires Ordered(rs) && rs != []
    ensures !Covers(rs, Earliest(rs).end)
  {
  }

  /** If nothing before `lo` is covered, the earliest range does not start there. */
  lemma EarliestFrom(rs: seq<LiveRange>, lo: nat)
    requires Ordered(rs) && forall p: nat :: p < lo ==> !Covers(rs, p)
    ensures rs == [] || lo <= Earliest(rs).begin
  {
    if rs != [] { assert Covers(rs, Earliest(rs).begin); }
  }

  /** What is not covered anywhere has no range. */
  lemma EarliestCovered(rs: seq<LiveRange>)
    requires Ordered(rs)
    ensures rs != [] ==> Covers(rs, Earliest(rs).begin)
  {
  }
}
