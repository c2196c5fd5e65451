/** What merging a push of a number with the pop behind it does to the native program's meaning. */
module X86Merge {
  import opened X86Encoding
  import opened X86Layout
  import opened Wrappers

  /** The stack machine between two commands: native address, operand stack, registers and everything else. */
  datatype State = State(at: nat, stack: seq<Double>, regs: map<nat, Double>, rest: int)

  /** What the other commands do; `None` where the program stops. */
  type Others = (Command, State) -> Option<State>

  predicate Stands(cmds: seq<Command>, j: nat, at: nat) {
    j < |cmds| && !cmds[j].isSkip && NativeAt(cmds, j) == at
  }

  /** The command at a native address, or the number of commands. */
  function Here(cmds: seq<Command>, at: nat, j: nat): (r: nat)
    requires j <= |cmds|
    ensures j <= r <= |cmds| && (r < |cmds| ==> Stands(cmds, r, at)) && forall l :: j <= l < r ==> !Stands(cmds, l, at)
    decreases |cmds| - j
  {
    if j == |cmds| || Stands(cmds, j, at) then j else Here(cmds, at, j + 1)
  }

  function Does(w: Others, c: Command, s: State): Option<State> {
    if c.name == PUSH && c.checksum == IMM then Some(s.(at := s.at + c.nativeSize, stack := s.stack + [c.value]))
    else if c.name == POP && c.checksum == REG then
      if |s.stack| == 0 then None
      else Some(s.(at := s.at + c.nativeSize, stack := s.stack[..|s.stack| - 1],
                   regs := s.regs[c.regIndex := s.stack[|s.stack| - 1]]))
    else if c.name == MOV_REG_NUM then Some(s.(at := s.at + c.nativeSize, regs := s.regs[c.regIndex := c.value]))
    else w(c, s)
  }

  function Step(w: Others, cmds: seq<Command>, s: State): Option<State> {
    var j := Here(cmds, s.at, 0);
    if j == |cmds| then None else Does(w, cmds[j], s)
  }

  function Run(w: Others, cmds: seq<Command>, s: State, n: nat): Option<State>
    decreases n
  {
    if n == 0 then Some(s)
    else match Step(w, cmds, s) case None => None case Some(s') => Run(w, cmds, s', n - 1)
  }

  predicate Positive(cmds: seq<Command>) { forall k :: 0 <= k < |cmds| ==> cmds[k].nativeSize > 0 }

  /** In a run from `s` nothing but the push leads to the pop. */
  ghost predicate NeverEntered(w: Others, cmds: seq<Command>, i: nat, s: State)
    requires i + 1 <= |cmds|
  {
    forall k: nat :: Run(w, cmds, s, k).Some? ==> !Enters(w, cmds, i, Run(w, cmds, s, k).value)
  }

  /** A step from `s`, where the push does not stand, ends at the pop. */
  predicate Enters(w: Others, cmds: seq<Command>, i: nat, s: State)
    requires i + 1 <= |cmds|
  {
    && Here(cmds, s.at, 0) != i && Step(w, cmds, s).Some?
    && Step(w, cmds, s).value.at == NativeAt(cmds, i + 1)
  }

  /** No command of the program but the push leads to the pop, in whatever state. */
  ghost predicate OnlyFromPush(w: Others, cmds: seq<Command>, i: nat)
    requires i + 1 <= |cmds|
  {
    forall j: nat, s: State :: Stands(cmds, j, s.at) && j != i && w(cmds[j], s).Some? ==>
      w(cmds[j], s).value.at != NativeAt(cmds, i + 1)
  }

  lemma {:induction false} Ordered(cmds: seq<Command>, j: nat, k: nat)
    requires Positive(cmds) && j <= k <= |cmds|
    ensures NativeAt(cmds, j) <= NativeAt(cmds, k)
    ensures j < k && !cmds[j].isSkip ==> NativeAt(cmds, j) + cmds[j].nativeSize <= NativeAt(cmds, k)
    decreases k
  {
    if j < k { Ordered(cmds, j, k - 1); }
  }

  /** Commands that count stand at different addresses. */
  lemma StandsAlone(cmds: seq<Command>, j: nat, k: nat, at: nat)
    requires Positive(cmds) && Stands(cmds, j, at) && Stands(cmds, k, at)
    ensures j == k
  {
    if j < k { Ordered(cmds, j, k); }
    if k < j { Ordered(cmds, k, j); }
  }

  lemma HereIs(cmds: seq<Command>, j: nat, at: nat)
    requires Positive(cmds) && Stands(cmds, j, at)
    ensures Here(cmds, at, 0) == j
  {
    StandsAlone(cmds, j, Here(cmds, at, 0), at);
  }

  predicate Merging(cmds: seq<Command>, i: nat) {
    Positive(cmds) && Mergeable(cmds, i) && !cmds[i].isSkip && !cmds[i + 1].isSkip
  }

  lemma MergedPositive(cmds: seq<Command>, i: nat)
    requires Merging(cmds, i)
    ensures Positive(Merged(cmds, i)) && |Merged(cmds, i)| == |cmds|
  {
  }

  /** Where a command stands after merging. */
  lemma MergedStands(cmds: seq<Command>, i: nat, j: nat, at: nat)
    requires Merging(cmds, i)
    ensures Stands(Merged(cmds, i), j, at) <==>
      if j == i then false else if j == i + 1 then Stands(cmds, i, at) else Stands(cmds, j, at)
  {
    if j <= |cmds| { MergeKeepsAddresses(cmds, i, j); }
  }

  /** The command found at an address other than the pop's. */
  lemma MergedHere(cmds: seq<Command>, i: nat, at: nat)
    requires Merging(cmds, i) && at != NativeAt(cmds, i + 1)
    ensures var j := Here(cmds, at, 0); Here(Merged(cmds, i), at, 0) == if j == i then i + 1 else j
    ensures Here(cmds, at, 0) != i + 1
  {
    hide Here, Merged;
    var m, j := Merged(cmds, i), Here(cmds, at, 0);
    MergedPositive(cmds, i);
    HereFound(cmds, at);
    HereFound(m, at);
    MergedStands(cmds, i, j, at);
    MergedStands(cmds, i, i + 1, at);
    if j < |cmds| {
      HereIs(m, if j == i then i + 1 else j, at);
    } else {
      forall l | 0 <= l < |m| ensures !Stands(m, l, at) { MergedStands(cmds, i, l, at); }
    }
  }

  lemma HereFound(cmds: seq<Command>, at: nat)
    ensures var r := Here(cmds, at, 0); r <= |cmds| && (r < |cmds| ==> Stands(cmds, r, at)) && (r == |cmds| ==> forall l :: 0 <= l < |cmds| ==> !Stands(cmds, l, at))
  {
  }

  /** It is enough to look at the commands one by one. */
  lemma OnlyFromPushNeverEnters(w: Others, cmds: seq<Command>, i: nat, s: State)
    requires Merging(cmds, i) && OnlyFromPush(w, cmds, i)
    ensures NeverEntered(w, cmds, i, s)
  {
    hide Run, OnlyFromPush, Enters;
    forall k: nat | Run(w, cmds, s, k).Some? ensures !Enters(w, cmds, i, Run(w, cmds, s, k).value) {
      NotAtPop(w, cmds, i, Run(w, cmds, s, k).value);
    }
  }

  lemma NotAtPop(w: Others, cmds: seq<Command>, i: nat, s: State)
    requires Merging(cmds, i) && OnlyFromPush(w, cmds, i)
    ensures !Enters(w, cmds, i, s)
  {
    hide Here;
    HereFound(cmds, s.at);
    var j := Here(cmds, s.at, 0);
    if j < |cmds| && j != i { FallsElsewhere(cmds, i, j); }
  }

  /** What follows another command is not the pop. */
  lemma FallsElsewhere(cmds: seq<Command>, i: nat, j: nat)
    requires Merging(cmds, i) && j < |cmds| && !cmds[j].isSkip && j != i
    ensures NativeAt(cmds, j) + cmds[j].nativeSize != NativeAt(cmds, i + 1)
  {
    hide NativeAt;
    if j < i { Ordered(cmds, j, i); Ordered(cmds, i, i + 1); } else { Ordered(cmds, i + 1, j); }
  }

  /** At the push, the move does what push and pop do. */
  lemma PushThenPop(w: Others, cmds: seq<Command>, i: nat, s: State)
    requires Merging(cmds, i) && Here(cmds, s.at, 0) == i
    ensures var m := Merged(cmds, i); Step(w, m, s).Some? && Step(w, m, s).value.at != NativeAt(cmds, i + 1)
    ensures Run(w, cmds, s, 2) == Step(w, Merged(cmds, i), s)
  {
    hide Here;
    HereFound(cmds, s.at);
    Ordered(cmds, i, i + 1);
    Ordered(cmds, i + 1, i + 2);
    MergedHere(cmds, i, s.at);
    var t := Step(w, cmds, s).value;
    assert t == s.(at := s.at + cmds[i].nativeSize, stack := s.stack + [cmds[i].value]);
    HereIs(cmds, i + 1, t.at);
    assert t.stack[..|t.stack| - 1] == s.stack;
    assert Step(w, cmds, t) == Step(w, Merged(cmds, i), s);
    assert Run(w, cmds, s, 2) == Run(w, cmds, t, 1);
  }

  lemma {:induction false} RunAdd(w: Others, cmds: seq<Command>, s: State, j: nat, k: nat)
    ensures Run(w, cmds, s, j + k) == match Run(w, cmds, s, j) case None => None case Some(t) => Run(w, cmds, t, k)
    decreases j
  {
    hide Step;
    if j > 0 && Step(w, cmds, s).Some? { RunAdd(w, cmds, Step(w, cmds, s).value, j - 1, k); }
  }

  lemma StillNotEntered(w: Others, cmds: seq<Command>, i: nat, s: State, j: nat)
    requires i + 1 <= |cmds| && NeverEntered(w, cmds, i, s) && Run(w, cmds, s, j).Some?
    ensures NeverEntered(w, cmds, i, Run(w, cmds, s, j).value)
  {
    hide Enters;
    var t := Run(w, cmds, s, j).value;
    forall k: nat | Run(w, cmds, t, k).Some? ensures !Enters(w, cmds, i, Run(w, cmds, t, k).value) {
      RunAdd(w, cmds, s, j, k);
      assert Run(w, cmds, s, j + k) == Run(w, cmds, t, k);
    }
  }

  lemma NotNow(w: Others, cmds: seq<Command>, i: nat, s: State)
    requires i + 1 <= |cmds| && NeverEntered(w, cmds, i, s)
    ensures !Enters(w, cmds, i, s)
  {
    assert Run(w, cmds, s, 0) == Some(s);
  }

  lemma OneStep(w: Others, cmds: seq<Command>, s: State)
    ensures Run(w, cmds, s, 1) == Step(w, cmds, s)
  {
    hide Step;
    if Step(w, cmds, s).Some? { assert Run(w, cmds, Step(w, cmds, s).value, 0) == Step(w, cmds, s); }
  }

  /** Every run of the merged program is one of the original with at most one more step for each of its own,
      as long as nothing jumps to the pop. */
  lemma {:induction false} MergeMeans(w: Others, cmds: seq<Command>, i: nat, s: State, n: nat) returns (k: nat)
    requires Merging(cmds, i) && NeverEntered(w, cmds, i, s) && s.at != NativeAt(cmds, i + 1)
    ensures n <= k <= 2 * n && Run(w, Merged(cmds, i), s, n) == Run(w, cmds, s, k)
    decreases n
  {
    hide Step, Here, Merged, NeverEntered;
    k := 0;
    if n > 0 {
      var m := Merged(cmds, i);
      MergedHere(cmds, i, s.at);
      if Here(cmds, s.at, 0) == i {
        PushThenPop(w, cmds, i, s);
        StillNotEntered(w, cmds, i, s, 2);
        var l := MergeMeans(w, cmds, i, Step(w, m, s).value, n - 1);
        RunAdd(w, cmds, s, 2, l);
        k := 2 + l;
      } else {
        SameStep(w, cmds, i, s);
        if Step(w, cmds, s).Some? {
          NotNow(w, cmds, i, s);
          OneStep(w, cmds, s);
          StillNotEntered(w, cmds, i, s, 1);
          var l := MergeMeans(w, cmds, i, Step(w, cmds, s).value, n - 1);
          k := 1 + l;
        } else {
          k := n;
        }
      }
    }
  }

  lemma SameStep(w: Others, cmds: seq<Command>, i: nat, s: State)
    requires Merging(cmds, i) && s.at != NativeAt(cmds, i + 1) && Here(cmds, s.at, 0) != i
    ensures Step(w, Merged(cmds, i), s) == Step(w, cmds, s)
  {
    hide Here;
    MergedHere(cmds, i, s.at);
    HereFound(cmds, s.at);
  }

  /** What a jump to the pop would find: the original takes a number off the stack, the merged program has no
      command there. */
  lemma PopIsGone(w: Others, cmds: seq<Command>, i: nat, s: State)
    requires Merging(cmds, i) && s.at == NativeAt(cmds, i + 1)
    ensures Step(w, Merged(cmds, i), s) == None
    ensures |s.stack| > 0 ==> Step(w, cmds, s).Some? && |Step(w, cmds, s).value.stack| == |s.stack| - 1
  {
    hide Here;
    HereIs(cmds, i + 1, s.at);
    var m := Merged(cmds, i);
    HereFound(m, s.at);
    MergedPositive(cmds, i);
    forall l | 0 <= l < |m| ensures !Stands(m, l, s.at) {
      MergedStands(cmds, i, l, s.at);
      if Stands(m, l, s.at) { StandsAlone(cmds, i + 1, if l == i + 1 then i else l, s.at); }
    }
  }

  // ----- A machine whose jumps jump -----

  /** What the commands that fall through do, when a condition holds, and how return addresses look on the stack. */
  datatype Unit = Unit(effect: (Command, State) -> Option<State>, holds: (Name, Double, Double) -> bool,
                       encode: nat -> Double, decode: Double -> nat)

  /** Jumps, calls and returns of the stack machine; the return address is an operand like any other. */
  function Native(u: Unit, c: Command, s: State): Option<State> {
    var next := s.at + c.nativeSize;
    var n := |s.stack|;
    if c.name == HLT || (IsJump(c.name) && c.target < 0) then None
    else if c.name == JMP then Some(s.(at := c.target))
    else if c.name == CALL then Some(s.(at := c.target, stack := s.stack + [u.encode(next)]))
    else if c.name == RET then if n == 0 then None else Some(s.(at := u.decode(s.stack[n - 1]), stack := s.stack[..n - 1]))
    else if IsCondition(c.name) then
      if n < 2 then None
      else Some(s.(at := if u.holds(c.name, s.stack[n - 2], s.stack[n - 1]) then c.target else next, stack := s.stack[..n - 2]))
    else match u.effect(c, s) case None => None case Some(t) => Some(t.(at := next))
  }

  /** Without returns it is enough that no jump names the pop. */
  lemma JumpsElsewhere(u: Unit, cmds: seq<Command>, i: nat)
    requires Merging(cmds, i)
    requires forall j :: 0 <= j < |cmds| && !cmds[j].isSkip ==>
      cmds[j].name != RET && (IsJump(cmds[j].name) ==> cmds[j].target != NativeAt(cmds, i + 1))
    ensures OnlyFromPush((c, s) => Native(u, c, s), cmds, i)
  {
    forall j: nat, s: State | Stands(cmds, j, s.at) && j != i && Native(u, cmds[j], s).Some?
      ensures Native(u, cmds[j], s).value.at != NativeAt(cmds, i + 1)
    {
      FallsElsewhere(cmds, i, j);
    }
  }

  /** A loop over a push and a pop, for one: it runs the same after merging. */
  lemma LoopMerges(u: Unit, v: Double, r: nat, s: State, n: nat) returns (k: nat)
    requires s.at == HEADER
    ensures var w := (c, t) => Native(u, c, t); var cmds := PushPopLoop(v, r);
      Merging(cmds, 0) && Run(w, Merged(cmds, 0), s, n) == Run(w, cmds, s, k)
  {
    hide Run;
    var w, cmds := (c, t) => Native(u, c, t), PushPopLoop(v, r);
    assert NativeAt(cmds, 0) == HEADER && NativeAt(cmds, 1) == HEADER + 10;
    JumpsElsewhere(u, cmds, 0);
    OnlyFromPushNeverEnters(w, cmds, 0, s);
    k := MergeMeans(w, cmds, 0, s, n);
  }

  function PushPopLoop(v: Double, r: nat): seq<Command> {
    [Formed(PUSH, 0, v, 0, IMM), Formed(POP, r, v, 0, REG), Formed(JMP, 0, v, HEADER, 0)]
  }
}
