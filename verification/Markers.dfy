/** Generation-stamped markers: a manager hands out a slot with a fresh stamp, and an object is marked when its
    word for the slot equals the stamp. Nothing is ever cleared when a marker is released. */
module Markers {
  import opened Wrappers

  const MAX_MARKERS := 4
  const MAX_VALUE := 0x3FFF_FFFF
  const UNDEF_VALUE := 0

  function Stamp(mark: nat): nat { mark / MAX_MARKERS }

  function Slot(mark: nat): nat { mark % MAX_MARKERS }

  lemma MarkParts(mark: nat)
    ensures Slot(mark) < MAX_MARKERS
  {
  }

  lemma MarkMade(index: nat, slot: nat)
    requires slot < MAX_MARKERS
    ensures Stamp(index * MAX_MARKERS + slot) == index && Slot(index * MAX_MARKERS + slot) == slot
  {
  }

  // ----- The state and its operations -----

  /** The manager's counter and slots, and the words of every object. */
  datatype State = State(currentIndex: nat, slots: seq<bool>, words: map<nat, seq<nat>>)

  function FreeFrom(slots: seq<bool>, i: nat): (r: nat)
    requires i <= |slots|
    ensures i <= r <= |slots| && (r < |slots| ==> !slots[r]) && forall j :: i <= j < r ==> slots[j]
    decreases |slots| - i
  {
    if i == |slots| || !slots[i] then i else FreeFrom(slots, i + 1)
  }

  /** A new marker, unless the counter is used up or no slot is free, where the original stops. */
  function Acquired(s: State): Option<(State, nat)> {
    var slot := FreeFrom(s.slots, 0);
    if s.currentIndex >= MAX_VALUE || slot == |s.slots| then None
    else Some((s.(currentIndex := s.currentIndex + 1, slots := s.slots[slot := true]), (s.currentIndex + 1) * MAX_MARKERS + slot))
  }

  function Released(s: State, mark: nat): State
    requires |s.slots| == MAX_MARKERS
  {
    s.(slots := s.slots[Slot(mark) := false])
  }

  function Written(s: State, obj: nat, mark: nat, word: nat): State
    requires obj in s.words && |s.words[obj]| == MAX_MARKERS
  {
    var now: seq<nat> := s.words[obj][Slot(mark) := word];
    s.(words := s.words[obj := now])
  }

  predicate IsSet(s: State, obj: nat, mark: nat) {
    obj in s.words && Slot(mark) < |s.words[obj]| && s.words[obj][Slot(mark)] == Stamp(mark)
  }

  /** Objects stamped by another manager, or new ones, join, and the counter is raised to that manager's. */
  function Merged(s: State, newIndex: nat, guests: map<nat, seq<nat>>): State {
    State(if newIndex > s.currentIndex then newIndex else s.currentIndex, s.slots, s.words + guests)
  }

  // ----- What markers mean -----

  /** Every held marker and the objects it is set on. */
  type Sets = map<nat, set<nat>>

  ghost predicate Stamped(words: map<nat, seq<nat>>, limit: nat) {
    forall o :: o in words ==> |words[o]| == MAX_MARKERS && forall i :: 0 <= i < MAX_MARKERS ==> words[o][i] <= limit
  }

  ghost predicate SlotsHeld(s: State, sets: Sets) {
    && |s.slots| == MAX_MARKERS
    && (forall m :: m in sets ==> s.slots[Slot(m)] && 0 < Stamp(m) <= s.currentIndex)
    && (forall m, n :: m in sets && n in sets && m != n ==> Slot(m) != Slot(n))
    && forall i :: 0 <= i < MAX_MARKERS && s.slots[i] ==> exists m :: m in sets && Slot(m) == i
  }

  ghost predicate Agrees(s: State, sets: Sets) {
    forall m, o :: m in sets && o in s.words ==> (IsSet(s, o, m) <==> o in sets[m])
  }

  ghost predicate Inv(s: State, sets: Sets) {
    && s.currentIndex <= MAX_VALUE && Stamped(s.words, s.currentIndex) && SlotsHeld(s, sets) && Agrees(s, sets)
    && forall m :: m in sets ==> sets[m] <= s.words.Keys
  }

  /** A new marker is set on nothing, whatever stale stamps the objects carry, and no held marker notices. */
  lemma AcquireFresh(s: State, sets: Sets)
    requires Inv(s, sets) && Acquired(s).Some?
    ensures var (s', mark) := Acquired(s).value;
      mark !in sets && Inv(s', sets[mark := {}]) && mark < 0x1_0000_0000
      && (forall o :: !IsSet(s', o, mark)) && (forall m, o :: m in sets ==> (IsSet(s', o, m) <==> IsSet(s, o, m)))
      && mark / 4 == s'.currentIndex == s.currentIndex + 1 && mark % 4 < |s.slots| == 4
      && !s.slots[mark % 4] && s'.slots == s.slots[mark % 4 := true] && (forall i :: 0 <= i < mark % 4 ==> s.slots[i])
  {
    hide Slot, Stamp, FreeFrom;
    var (s', mark) := Acquired(s).value;
    var slot := FreeFrom(s.slots, 0);
    FreeSlot(s.slots);
    MarkMade(s.currentIndex + 1, slot);
    forall m ensures Slot(m) < MAX_MARKERS { MarkParts(m); }
    assert mark !in sets;
    var sets' := sets[mark := {}];
    forall i | 0 <= i < MAX_MARKERS && s'.slots[i] ensures exists m :: m in sets' && Slot(m) == i {
      if i != slot {
        var m :| m in sets && Slot(m) == i;
        assert m in sets';
      } else {
        assert mark in sets';
      }
    }
  }

  lemma FreeSlot(slots: seq<bool>)
    ensures var r := FreeFrom(slots, 0); r <= |slots| && (r < |slots| ==> !slots[r]) && forall j :: 0 <= j < r ==> slots[j]
  {
  }

  function UsedSlots(slots: seq<bool>): set<nat> { set i: nat | i < |slots| && slots[i] }

  lemma AllUsedIff(slots: seq<bool>)
    requires |slots| == MAX_MARKERS
    ensures FreeFrom(slots, 0) == MAX_MARKERS <==> |UsedSlots(slots)| == MAX_MARKERS
  {
    hide FreeFrom;
    FreeSlot(slots);
    var used, all: set<nat> := UsedSlots(slots), {0, 1, 2, 3};
    var free := FreeFrom(slots, 0);
    if free == MAX_MARKERS {
      assert used == all;
    } else {
      assert free in all && used <= all - {free};
      Fewer(used, all - {free});
    }
  }

  /** Acquiring fails exactly when four markers are held or the counter is used up. */
  lemma AcquireFailsIff(s: State, sets: Sets)
    requires Inv(s, sets)
    ensures Acquired(s) == None <==> |sets| == 4 || s.currentIndex == 0x3FFF_FFFF
  {
    hide Slot, Stamp, FreeFrom, Agrees, Stamped, SlotsHeld, UsedSlots;
    HeldSize(s, sets);
    AllUsedIff(s.slots);
    FreeSlot(s.slots);
    UsedByHeld(s, sets);
    SlotCount(s, sets, sets.Keys, UsedSlots(s.slots));
    assert |sets| == |sets.Keys|;
  }

  lemma UsedByHeld(s: State, sets: Sets)
    requires SlotsHeld(s, sets)
    ensures forall i :: i in UsedSlots(s.slots) <==> exists m :: m in sets.Keys && Slot(m) == i
  {
    hide Slot, Stamp;
    forall m ensures Slot(m) < MAX_MARKERS { MarkParts(m); }
  }

  lemma HeldSize(s: State, sets: Sets)
    requires SlotsHeld(s, sets)
    ensures |s.slots| == MAX_MARKERS
  {
  }

  lemma {:induction false} Fewer(a: set<nat>, b: set<nat>)
    requires a <= b
    ensures |a| <= |b|
  {
    if a != {} {
      var x :| x in a;
      Fewer(a - {x}, b - {x});
    }
  }

  /** As many markers as used slots: markers have slots of their own, and every used slot has one. */
  lemma {:induction false} SlotCount(s: State, sets: Sets, marks: set<nat>, used: set<nat>)
    requires SlotsHeld(s, sets) && marks <= sets.Keys
    requires forall i :: i in used <==> exists m :: m in marks && Slot(m) == i
    ensures |marks| == |used|
    decreases marks
  {
    hide Stamp, Slot;
    forall m ensures Slot(m) < MAX_MARKERS { MarkParts(m); }
    if marks == {} {
      assert used == {};
    } else {
      var m :| m in marks;
      var marks', used' := marks - {m}, used - {Slot(m)};
      assert Slot(m) in used;
      forall i ensures i in used' <==> exists n :: n in marks' && Slot(n) == i {
        if i in used' {
          var n :| n in marks && Slot(n) == i;
          assert n in marks';
        }
      }
      SlotCount(s, sets, marks', used');
    }
  }

  /** Releasing forgets one marker; the objects keep their stale stamps. */
  lemma ReleaseKeeps(s: State, sets: Sets, mark: nat)
    requires Inv(s, sets) && mark in sets
    ensures Inv(Released(s, mark), sets - {mark}) && Released(s, mark).words == s.words
  {
    hide Stamp, Slot;
    forall m ensures Slot(m) < MAX_MARKERS { MarkParts(m); }
    var s', sets' := Released(s, mark), sets - {mark};
    forall i | 0 <= i < MAX_MARKERS && s'.slots[i] ensures exists m :: m in sets' && Slot(m) == i {
      var m :| m in sets && Slot(m) == i;
      assert m in sets';
    }
  }

  /** Setting a held marker adds one object to it and to no other; the answer is whether it was new. */
  lemma SetAdds(s: State, sets: Sets, obj: nat, mark: nat)
    requires Inv(s, sets) && mark in sets && obj in s.words
    ensures Inv(Written(s, obj, mark, Stamp(mark)), sets[mark := sets[mark] + {obj}])
    ensures s.words[obj][Slot(mark)] != Stamp(mark) <==> obj !in sets[mark]
  {
    WrittenHolds(s, sets, obj, mark, Stamp(mark));
    assert IsSet(s, obj, mark) <==> obj in sets[mark];
  }

  /** Clearing a held marker takes one object out of it and out of no other. */
  lemma ClearRemoves(s: State, sets: Sets, obj: nat, mark: nat)
    requires Inv(s, sets) && mark in sets && obj in s.words
    ensures Inv(Written(s, obj, mark, UNDEF_VALUE), sets[mark := sets[mark] - {obj}])
  {
    WrittenHolds(s, sets, obj, mark, UNDEF_VALUE);
  }

  lemma WrittenHolds(s: State, sets: Sets, obj: nat, mark: nat, word: nat)
    requires Inv(s, sets) && mark in sets && obj in s.words && word <= s.currentIndex
    ensures var now := if word == Stamp(mark) then sets[mark] + {obj} else sets[mark] - {obj};
      Inv(Written(s, obj, mark, word), sets[mark := now])
  {
    hide Stamp, Slot, SlotsHeld;
    forall m ensures Slot(m) < MAX_MARKERS { MarkParts(m); }
    HeldApart(s, sets);
    var s' := Written(s, obj, mark, word);
    var now := if word == Stamp(mark) then sets[mark] + {obj} else sets[mark] - {obj};
    var sets' := sets[mark := now];
    assert s'.words.Keys == s.words.Keys;
    HeldStill(s, sets, s', mark, now);
    forall m, o | m in sets' && o in s'.words ensures IsSet(s', o, m) <==> o in sets'[m] {
      assert m in sets && (IsSet(s, o, m) <==> o in sets[m]);
    }
  }

  lemma HeldApart(s: State, sets: Sets)
    requires SlotsHeld(s, sets)
    ensures forall m, n :: m in sets && n in sets && m != n ==> Slot(m) != Slot(n)
    ensures forall m :: m in sets ==> 0 < Stamp(m)
  {
    hide Slot, Stamp;
  }

  lemma HeldStill(s: State, sets: Sets, s': State, mark: nat, now: set<nat>)
    requires SlotsHeld(s, sets) && mark in sets && s'.slots == s.slots && s'.currentIndex == s.currentIndex
    ensures SlotsHeld(s', sets[mark := now])
  {
    hide Slot, Stamp;
    var sets' := sets[mark := now];
    assert sets'.Keys == sets.Keys;
    forall i | 0 <= i < MAX_MARKERS && s'.slots[i] ensures exists m :: m in sets' && Slot(m) == i {
      var m :| m in sets && Slot(m) == i;
      assert m in sets';
    }
  }

  /** None of the guests carries, in the slot of a held marker, that marker's stamp. */
  ghost predicate Strange(sets: Sets, guests: map<nat, seq<nat>>) {
    forall m, o :: m in sets && o in guests ==> Slot(m) < |guests[o]| && guests[o][Slot(m)] != Stamp(m)
  }

  /** Guests of another manager leave everything in order exactly when they carry no held marker's stamp. */
  lemma MergeIff(s: State, sets: Sets, newIndex: nat, guests: map<nat, seq<nat>>)
    requires Inv(s, sets) && newIndex < MAX_VALUE && Stamped(guests, newIndex) && guests.Keys !! s.words.Keys
    ensures Inv(Merged(s, newIndex, guests), sets) <==> Strange(sets, guests)
  {
    hide Slot, Stamp, SlotsHeld;
    var s' := Merged(s, newIndex, guests);
    SlotsKept(s, sets, s');
    if Strange(sets, guests) {
      forall m, o | m in sets && o in s'.words ensures IsSet(s', o, m) <==> o in sets[m] {
        if o in guests { assert o !in sets[m]; } else { assert IsSet(s, o, m) <==> o in sets[m]; }
      }
    }
    if Inv(s', sets) {
      forall m, o | m in sets && o in guests ensures Slot(m) < |guests[o]| && guests[o][Slot(m)] != Stamp(m) {
        MarkParts(m);
        assert IsSet(s', o, m) <==> o in sets[m];
      }
    }
  }

  lemma SlotsKept(s: State, sets: Sets, s': State)
    requires SlotsHeld(s, sets) && s'.slots == s.slots && s'.currentIndex >= s.currentIndex
    ensures SlotsHeld(s', sets)
  {
    hide Slot, Stamp;
  }

  /** Markers acquired after guests joined are fresh on all objects, whatever the guests carry. */
  lemma FreshAfterMerge(s: State, sets: Sets, newIndex: nat, guests: map<nat, seq<nat>>, obj: nat)
    requires Inv(s, sets) && newIndex < MAX_VALUE && Stamped(guests, newIndex)
    ensures var after := Acquired(Merged(s, newIndex, guests)); after.Some? ==> !IsSet(after.value.0, obj, after.value.1)
  {
    hide Slot, Stamp, FreeFrom;
    var s' := Merged(s, newIndex, guests);
    FreeSlot(s'.slots);
    if FreeFrom(s'.slots, 0) < MAX_MARKERS { MarkMade(s'.currentIndex + 1, FreeFrom(s'.slots, 0)); }
    assert obj in s'.words ==> s'.words[obj] == if obj in guests then guests[obj] else s.words[obj];
  }

  /** A guest that looks marked: its stale stamp is that of the marker held while it joins. */
  lemma GuestLooksMarked()
    ensures var s := State(1, [true, false, false, false], map[]);
      var guests := map[7 := [1, 0, 0, 0]];
      Inv(s, map[4 := {}]) && IsSet(Merged(s, 1, guests), 7, 4)
  {
    var s := State(1, [true, false, false, false], map[]);
    var sets: Sets := map[4 := {}];
    assert 4 in sets && Slot(4) == 0 && Stamp(4) == 1;
  }

  // ----- Runs -----

  datatype Event =
    | Acquire
    | Release(mark: nat)
    | Set(obj: nat, mark: nat)
    | Clear(obj: nat, mark: nat)
    | Merge(newIndex: nat, guests: map<nat, seq<nat>>)

  /** Only held markers are released, set or cleared; guests join with nothing of a held marker on them. */
  ghost predicate Allowed(s: State, sets: Sets, e: Event) {
    match e
    case Acquire => Acquired(s).Some?
    case Release(m) => m in sets
    case Set(o, m) => m in sets && o in s.words
    case Clear(o, m) => m in sets && o in s.words
    case Merge(i, guests) =>
      i < MAX_VALUE && Stamped(guests, i) && guests.Keys !! s.words.Keys && Strange(sets, guests)
  }

  /** What an event does to the objects each marker is set on. */
  ghost function SetsAfter(s: State, sets: Sets, e: Event): Sets
    requires Allowed(s, sets, e)
  {
    match e
    case Acquire => sets[Acquired(s).value.1 := {}]
    case Release(m) => sets - {m}
    case Set(o, m) => sets[m := sets[m] + {o}]
    case Clear(o, m) => sets[m := sets[m] - {o}]
    case Merge(_, _) => sets
  }

  ghost function StateAfter(s: State, sets: Sets, e: Event): State
    requires Inv(s, sets) && Allowed(s, sets, e)
  {
    match e
    case Acquire => Acquired(s).value.0
    case Release(m) => Released(s, m)
    case Set(o, m) => Written(s, o, m, Stamp(m))
    case Clear(o, m) => Written(s, o, m, UNDEF_VALUE)
    case Merge(i, guests) => Merged(s, i, guests)
  }

  lemma StepKeeps(s: State, sets: Sets, e: Event)
    requires Inv(s, sets) && Allowed(s, sets, e)
    ensures Inv(StateAfter(s, sets, e), SetsAfter(s, sets, e))
  {
    hide Inv, Acquired, Stamped, Released, Written, Merged, Strange;
    match e
    case Acquire => AcquireFresh(s, sets);
    case Release(m) => ReleaseKeeps(s, sets, m);
    case Set(o, m) => SetAdds(s, sets, o, m);
    case Clear(o, m) => ClearRemoves(s, sets, o, m);
    case Merge(i, guests) => MergeIff(s, sets, i, guests);
  }

  /** A run from `s`, where the markers are set on `sets`, that ends in `s'` with `sets'`. */
  ghost predicate RunsTo(s: State, sets: Sets, events: seq<Event>, s': State, sets': Sets)
    requires Inv(s, sets)
    decreases events
  {
    if |events| == 0 then s' == s && sets' == sets
    else
      Allowed(s, sets, events[0]) && (StepKeeps(s, sets, events[0]);
      RunsTo(StateAfter(s, sets, events[0]), SetsAfter(s, sets, events[0]), events[1..], s', sets'))
  }

  /** After any run a marker is seen exactly on the objects it was set on and not cleared from since it was
      acquired. */
  lemma {:induction false} MarkersAreSets(s: State, sets: Sets, events: seq<Event>, s': State, sets': Sets)
    requires Inv(s, sets) && RunsTo(s, sets, events, s', sets')
    ensures Inv(s', sets') && forall m, o :: m in sets' && o in s'.words ==> (IsSet(s', o, m) <==> o in sets'[m])
    decreases events
  {
    hide Allowed, StateAfter, SetsAfter;
    if |events| > 0 {
      StepKeeps(s, sets, events[0]);
      MarkersAreSets(StateAfter(s, sets, events[0]), SetsAfter(s, sets, events[0]), events[1..], s', sets');
    }
  }

  // ----- The classes -----

  class MarkerManager {
    var currentIndex: nat
    var markersSlots: seq<bool>

    constructor ()
      ensures currentIndex == 0 && markersSlots == seq(MAX_MARKERS, _ => false)
    {
      currentIndex, markersSlots := 0, seq(MAX_MARKERS, _ => false);
    }

    /** The manager and objects with these words. */
    function At(words: map<nat, seq<nat>>): State
      reads this
    {
      State(currentIndex, markersSlots, words)
    }

    method GetNewMarker(ghost words: map<nat, seq<nat>>) returns (ok: bool, mark: nat)
      modifies this
      ensures ok <==> old(Acquired(At(words))).Some?
      ensures ok ==> old(Acquired(At(words))) == Some((At(words), mark))
    {
      if currentIndex >= MAX_VALUE { return false, 0; }
      currentIndex := currentIndex + 1;
      var i := 0;
      while i < |markersSlots|
        invariant 0 <= i <= |markersSlots| && markersSlots == old(markersSlots) && currentIndex == old(currentIndex) + 1
        invariant FreeFrom(markersSlots, 0) == FreeFrom(markersSlots, i)
      {
        if !markersSlots[i] {
          mark := currentIndex * MAX_MARKERS + i;
          markersSlots := markersSlots[i := true];
          return true, mark;
        }
        i := i + 1;
      }
      return false, 0;
    }

    method ReleaseMarker(mark: nat, ghost words: map<nat, seq<nat>>)
      requires |markersSlots| == MAX_MARKERS
      modifies this
      ensures At(words) == Released(old(At(words)), mark)
    {
      markersSlots := markersSlots[Slot(mark) := false];
    }

    method SetMarkerIndex(newIndex: nat, ghost words: map<nat, seq<nat>>, ghost guests: map<nat, seq<nat>>)
      requires newIndex < MAX_VALUE
      modifies this
      ensures At(words + guests) == Merged(old(At(words)), newIndex, guests)
    {
      currentIndex := if newIndex > currentIndex then newIndex else currentIndex;
    }
  }

  class Markable {
    var markers: seq<nat>

    constructor ()
      ensures markers == seq(MAX_MARKERS, _ => UNDEF_VALUE)
    {
      markers := seq(MAX_MARKERS, _ => UNDEF_VALUE);
    }

    /** Sets the marker and says whether it was not set before. */
    method SetMarker(mark: nat, ghost s: State, ghost obj: nat) returns (wasSet: bool)
      requires |markers| == MAX_MARKERS && obj in s.words && s.words[obj] == markers
      modifies this
      ensures s.words[obj := markers] == Written(s, obj, mark, Stamp(mark)).words
      ensures wasSet <==> !IsSet(s, obj, mark)
    {
      wasSet := markers[Slot(mark)] != Stamp(mark);
      markers := markers[Slot(mark) := Stamp(mark)];
    }

    method IsMarkerSet(mark: nat, ghost s: State, ghost obj: nat) returns (r: bool)
      requires |markers| == MAX_MARKERS && obj in s.words && s.words[obj] == markers
      ensures r <==> IsSet(s, obj, mark)
    {
      return markers[Slot(mark)] == Stamp(mark);
    }

    method ClearMarker(mark: nat, ghost s: State, ghost obj: nat)
      requires |markers| == MAX_MARKERS && obj in s.words && s.words[obj] == markers
      modifies this
      ensures s.words[obj := markers] == Written(s, obj, mark, UNDEF_VALUE).words
    {
      markers := markers[Slot(mark) := UNDEF_VALUE];
    }
  }
}
