/** Addresses: where every command was in the native code, and where its x86 bytes will be. */
module X86Layout {
  import opened X86Encoding

  const HEADER := 8
  const ENTRY := 10

  /** The native address of command `i`: skipped commands take no room. */
  function NativeAt(cmds: seq<Command>, i: nat): nat
    requires i <= |cmds|
  {
    if i == 0 then HEADER else NativeAt(cmds, i - 1) + if cmds[i - 1].isSkip then 0 else cmds[i - 1].nativeSize
  }

  function X86At(cmds: seq<Command>, i: nat): nat
    requires i <= |cmds|
  {
    if i == 0 then 0 else X86At(cmds, i - 1) + if cmds[i - 1].isSkip then 0 else cmds[i - 1].x86Size
  }

  /** Both addresses are filled in. */
  predicate Addressed(cmds: seq<Command>) {
    forall i :: 0 <= i < |cmds| && !cmds[i].isSkip ==> cmds[i].nativeIp == NativeAt(cmds, i) && cmds[i].x86Ip == X86At(cmds, i)
  }

  /** Only addresses differ. */
  predicate SameButAddresses(c: Command, d: Command) { d == c.(nativeIp := d.nativeIp, x86Ip := d.x86Ip) }

  lemma {:induction false} SameAddresses(cmds: seq<Command>, cmds': seq<Command>, i: nat)
    requires |cmds| == |cmds'| && i <= |cmds|
    requires forall k :: 0 <= k < |cmds| ==>
      cmds[k].isSkip == cmds'[k].isSkip && cmds[k].nativeSize == cmds'[k].nativeSize && cmds[k].x86Size == cmds'[k].x86Size
    ensures NativeAt(cmds, i) == NativeAt(cmds', i) && X86At(cmds, i) == X86At(cmds', i)
  {
    if i > 0 { SameAddresses(cmds, cmds', i - 1); }
  }

  /** Native addresses tell commands apart. */
  lemma {:induction false} NativeIncreases(cmds: seq<Command>, i: nat, j: nat)
    requires i < j <= |cmds| && !cmds[i].isSkip && cmds[i].nativeSize > 0
    ensures NativeAt(cmds, i) < NativeAt(cmds, j)
    decreases j
  {
    if i < j - 1 { NativeIncreases(cmds, i, j - 1); }
  }

  // ----- Emission -----

  type Offset = Double -> nat

  /** All bytes before command `i`, after the header that loads the memory pointer. */
  function Emitted(cmds: seq<Command>, counter: nat, offset: Offset, i: nat): seq<Byte>
    requires i <= |cmds|
  {
    if i == 0 then Low(0xBA49, 2) + Low(0x400078 + 6000, 8)
    else
      var before := Emitted(cmds, counter, offset, i - 1);
      if cmds[i - 1].isSkip then before else before + Encoding(cmds[i - 1], counter, offset(cmds[i - 1].value))
  }

  predicate Sized(c: Command) { c.x86Size == ReservedSize(c.name, c.checksum) && !(c.name == POP && c.checksum == IMM) }

  /** The bytes of command `i` are where the layout put them. */
  lemma {:induction false} EmittedAt(cmds: seq<Command>, counter: nat, offset: Offset, i: nat)
    requires i <= |cmds| && forall k :: 0 <= k < i && !cmds[k].isSkip ==> Sized(cmds[k])
    ensures |Emitted(cmds, counter, offset, i)| == ENTRY + X86At(cmds, i)
  {
    hide Encoding, ReservedSize;
    if i > 0 {
      EmittedAt(cmds, counter, offset, i - 1);
      var c := cmds[i - 1];
      if !c.isSkip { SizedIff(c, counter, offset(c.value)); }
    }
  }

  lemma {:induction false} EmittedKeeps(cmds: seq<Command>, counter: nat, offset: Offset, i: nat, n: nat)
    requires i <= n <= |cmds|
    ensures Emitted(cmds, counter, offset, i) <= Emitted(cmds, counter, offset, n)
    decreases n
  {
    hide Encoding;
    if i < n { EmittedKeeps(cmds, counter, offset, i, n - 1); }
  }

  /** In the finished code a command's encoding is at its x86 address, ten bytes in. */
  lemma Located(cmds: seq<Command>, counter: nat, offset: Offset, i: nat)
    requires i < |cmds| && !cmds[i].isSkip && forall k :: 0 <= k < |cmds| && !cmds[k].isSkip ==> Sized(cmds[k])
    ensures var code := Emitted(cmds, counter, offset, |cmds|); var p := ENTRY + X86At(cmds, i);
      var e := Encoding(cmds[i], counter, offset(cmds[i].value));
      p + |e| <= |code| && code[p..p + |e|] == e && |e| == cmds[i].x86Size
  {
    hide Encoding, ReservedSize;
    var c := cmds[i];
    var e := Encoding(c, counter, offset(c.value));
    EmittedAt(cmds, counter, offset, i);
    EmittedAt(cmds, counter, offset, i + 1);
    EmittedKeeps(cmds, counter, offset, i + 1, |cmds|);
    SizedIff(c, counter, offset(c.value));
    var code, here := Emitted(cmds, counter, offset, |cmds|), Emitted(cmds, counter, offset, i);
    assert Emitted(cmds, counter, offset, i + 1) == here + e;
    Within(code, here, e);
  }

  lemma Within(code: seq<Byte>, here: seq<Byte>, e: seq<Byte>)
    requires here + e <= code
    ensures |here| + |e| <= |code| && code[|here|..|here| + |e|] == e
  {
    assert code[..|here + e|] == here + e;
    assert code[|here|..|here| + |e|] == code[..|here + e|][|here|..];
  }

  // ----- Where jumps lead -----

  /** Where the relative address of a jump, a call, a conditional jump or a routine call is in its encoding. */
  function RelativeAt(name: Name): nat {
    if name == OUT then 27 else if name == IN then 7 else if IsCondition(name) then 22 else 1
  }

  /** The relative address stored. */
  function Displacement(c: Command, counter: nat): int {
    if c.name == OUT then counter - c.x86Ip - 31 else if c.name == IN then counter - c.x86Ip - 11 + PRINTF_LEN
    else c.target - (c.x86Ip + RelativeAt(c.name) + 4)
  }

  /** Where control is meant to go: printing to just past the last command, reading past the printing
      routine, a jump or call to its target. */
  function Goal(c: Command, counter: nat): int {
    ENTRY + if c.name == OUT then counter else if c.name == IN then counter + PRINTF_LEN else c.target
  }

  lemma DisplacementMeans(c: Command, counter: nat)
    ensures ENTRY + c.x86Ip + RelativeAt(c.name) + 4 + Displacement(c, counter) == Goal(c, counter)
  {
  }

  /** The relative addresses the source stores, as the tail of what precedes them and the head of what follows. */
  lemma StoredRelative(c: Command, counter: nat, offset: nat)
    requires IsJump(c.name) || c.name == OUT || c.name == IN
    ensures var e := Encoding(c, counter, offset); var k := RelativeAt(c.name);
      k + 4 <= |e| && e[k..k + 4] == Relative(Displacement(c, counter))
  {
    hide Low, Relative, Encoding, Out, In, Condition, Jump;
    EncodingKind(c, counter, offset);
    if c.name == OUT {
      OutRelative(c, counter);
    } else if c.name == IN {
      InRelative(c, counter);
    } else if IsCondition(c.name) {
      ConditionRelative(c);
    } else {
      JumpRelative(c);
    }
  }

  lemma EncodingKind(c: Command, counter: nat, offset: nat)
    requires IsJump(c.name) || c.name == OUT || c.name == IN
    ensures Encoding(c, counter, offset) ==
      if c.name == OUT then Out(c, counter) else if c.name == IN then In(c, counter)
      else if IsCondition(c.name) then Condition(c) else Jump(c)
  {
    hide Low, Relative, Out, In, Condition, Jump, PushPop, Math;
  }

  /** A slice of three joined pieces. */
  lemma Slice(x: seq<Byte>, y: seq<Byte>, z: seq<Byte>)
    ensures (x + y + z)[|x|..|x| + |y|] == y
  {
  }

  lemma OutRelative(c: Command, counter: nat)
    ensures |Out(c, counter)| == 41 && Out(c, counter)[27..31] == Relative(counter - c.x86Ip - 31)
  {
    hide Low, Relative;
    RelativeSize(counter - c.x86Ip - 31);
    var x := OutNumber() + Low(0xE48949, 3) + Low(0xF0E48348, 4) + Low(0xE8, 1);
    assert Out(c, counter) == x + Relative(counter - c.x86Ip - 31) + OutEnd();
    Slice(x, Relative(counter - c.x86Ip - 31), OutEnd());
  }

  lemma InRelative(c: Command, counter: nat)
    ensures |In(c, counter)| == 18 && In(c, counter)[7..11] == Relative(counter - c.x86Ip - 11 + PRINTF_LEN)
  {
    hide Low, Relative;
    RelativeSize(counter - c.x86Ip - 11 + PRINTF_LEN);
    var x, z := Low(0x505152535241, 6) + Low(0xE8, 1), Low(0x5A415B5A5958, 6) + Low(0x56, 1);
    assert In(c, counter) == x + Relative(counter - c.x86Ip - 11 + PRINTF_LEN) + z;
    Slice(x, Relative(counter - c.x86Ip - 11 + PRINTF_LEN), z);
  }

  lemma ConditionRelative(c: Command)
    ensures |Condition(c)| == 26 && Condition(c)[22..26] == Relative(c.target - (c.x86Ip + 26))
  {
    hide Low, Relative;
    RelativeSize(c.target - (c.x86Ip + 26));
    var x := Low(XMM0_FROM_STACK, 6) + Low(XMM1_FROM_STACK_8, 6) + Low(ADD_RSP_16, 4) + Low(0xC12E0F66, 4)
      + Low(0x0F + ConditionMask(c.name) * 0x100, 2);
    assert Condition(c) == x + Relative(c.target - (c.x86Ip + 26)) + [];
    Slice(x, Relative(c.target - (c.x86Ip + 26)), []);
  }

  lemma JumpRelative(c: Command)
    ensures |Jump(c)| == 5 && Jump(c)[1..5] == Relative(c.target - (c.x86Ip + 5))
  {
    hide Low, Relative;
    RelativeSize(c.target - (c.x86Ip + 5));
    var x := Low(if c.name == CALL then 0xE8 else 0xE9, 1);
    assert Jump(c) == x + Relative(c.target - (c.x86Ip + 5)) + [];
    Slice(x, Relative(c.target - (c.x86Ip + 5)), []);
  }

  /** Where the finished code goes from the relative address of command `i`. */
  function GoesTo(cmds: seq<Command>, counter: nat, offset: Offset, i: nat): nat
    requires i < |cmds| && ENTRY + X86At(cmds, i) + RelativeAt(cmds[i].name) + 4 <= |Emitted(cmds, counter, offset, |cmds|)|
  {
    var p := ENTRY + X86At(cmds, i) + RelativeAt(cmds[i].name);
    (p + 4 + Stored(Emitted(cmds, counter, offset, |cmds|), p)) % WORD
  }

  /** The relative address of command `i` is in the finished code. */
  lemma RelativeInCode(cmds: seq<Command>, counter: nat, offset: Offset, i: nat)
    requires i < |cmds| && !cmds[i].isSkip && (IsJump(cmds[i].name) || cmds[i].name == OUT || cmds[i].name == IN)
    requires forall k :: 0 <= k < |cmds| && !cmds[k].isSkip ==> Sized(cmds[k])
    ensures var p := ENTRY + X86At(cmds, i) + RelativeAt(cmds[i].name); var code := Emitted(cmds, counter, offset, |cmds|);
      p + 4 <= |code| && code[p..p + 4] == Relative(Displacement(cmds[i], counter))
  {
    hide Encoding, ReservedSize, Relative, Emitted, Low, Sized, Displacement, RelativeAt;
    var c, code := cmds[i], Emitted(cmds, counter, offset, |cmds|);
    Located(cmds, counter, offset, i);
    StoredRelative(c, counter, offset(c.value));
    SameBytes(code, ENTRY + X86At(cmds, i), Encoding(c, counter, offset(c.value)), RelativeAt(c.name));
  }

  /** Jumps and calls go to the first byte of the command at their target; printing goes just past the last
      command, and reading past the printing routine. */
  lemma JumpsLand(cmds: seq<Command>, counter: nat, offset: Offset, i: nat)
    requires i < |cmds| && !cmds[i].isSkip && (IsJump(cmds[i].name) || cmds[i].name == OUT || cmds[i].name == IN)
    requires Addressed(cmds) && forall k :: 0 <= k < |cmds| && !cmds[k].isSkip ==> Sized(cmds[k])
    requires 0 <= Goal(cmds[i], counter) < WORD
    ensures ENTRY + X86At(cmds, i) + RelativeAt(cmds[i].name) + 4 <= |Emitted(cmds, counter, offset, |cmds|)|
    ensures GoesTo(cmds, counter, offset, i) == Goal(cmds[i], counter)
  {
    hide Encoding, Relative, Emitted, Stored, Low, Sized, Displacement, Goal, RelativeAt;
    RelativeInCode(cmds, counter, offset, i);
    assert cmds[i].x86Ip == X86At(cmds, i);
    DisplacementMeans(cmds[i], counter);
    Arrives(Emitted(cmds, counter, offset, |cmds|), ENTRY + X86At(cmds, i) + RelativeAt(cmds[i].name),
            Displacement(cmds[i], counter));
  }

  /** A relative address in the code, and where it leads. */
  lemma Arrives(code: seq<Byte>, p: nat, v: int)
    requires p + 4 <= |code| && code[p..p + 4] == Relative(v) && 0 <= p + 4 + v < WORD
    ensures (p + 4 + Stored(code, p)) % WORD == p + 4 + v
  {
    hide Relative, Stored;
    RelativeStored(v);
    RelativeSize(v);
    StoredSlice(code, p, Relative(v));
    LandsAt(p + 4, v, p + 4 + v);
  }

  lemma SameBytes(code: seq<Byte>, p: nat, e: seq<Byte>, k: nat)
    requires p + |e| <= |code| && code[p..p + |e|] == e && k + 4 <= |e|
    ensures code[p + k..p + k + 4] == e[k..k + 4]
  {
    var q, r := code[p + k..p + k + 4], e[k..k + 4];
    forall j | 0 <= j < 4 ensures q[j] == r[j] {
      assert code[p + k + j] == code[p..p + |e|][k + j];
    }
  }

  lemma StoredSlice(code: seq<Byte>, p: nat, b: seq<Byte>)
    requires p + 4 <= |code| && |b| == 4 && code[p..p + 4] == b
    ensures Stored(code, p) == Stored(b, 0)
  {
    var q := code[p..p + 4];
    assert code[p] == q[0] && code[p + 1] == q[1] && code[p + 2] == q[2] && code[p + 3] == q[3];
  }

  // ----- Merging push and pop -----

  /** A number pushed and popped into a register at once becomes one move. */
  predicate Mergeable(cmds: seq<Command>, i: nat) {
    && i + 1 < |cmds| && cmds[i].name == PUSH && cmds[i].checksum == IMM
    && cmds[i + 1].name == POP && cmds[i + 1].checksum == REG
  }

  function Merged(cmds: seq<Command>, i: nat): seq<Command>
    requires i + 1 < |cmds|
  {
    var c, d := cmds[i], cmds[i + 1];
    cmds[i := c.(isSkip := true)]
        [i + 1 := d.(name := MOV_REG_NUM, x86Size := 10, value := c.value, nativeSize := d.nativeSize + c.nativeSize)]
  }

  // ----- What the parser delivers -----

  /** No address is filled in yet, and commands that are not skipped take room in the native code. */
  predicate Unaddressed(cmds: seq<Command>) {
    forall k :: 0 <= k < |cmds| ==> cmds[k].nativeIp == 0 && (!cmds[k].isSkip ==> cmds[k].nativeSize > 0)
  }

  predicate AllSized(cmds: seq<Command>) { forall k :: 0 <= k < |cmds| && !cmds[k].isSkip ==> Sized(cmds[k]) }

  /** The parser's commands have the sizes that are emitted exactly when none of them pops into a number. */
  lemma ParsedSizedIff(cmds: seq<Command>)
    requires forall k :: 0 <= k < |cmds| ==> FromParser(cmds[k])
    ensures Unaddressed(cmds)
    ensures AllSized(cmds) <==> forall k :: 0 <= k < |cmds| ==> !(cmds[k].name == POP && cmds[k].checksum == IMM)
  {
    hide ReservedSize;
    if AllSized(cmds) {
      forall k | 0 <= k < |cmds| ensures !(cmds[k].name == POP && cmds[k].checksum == IMM) { assert Sized(cmds[k]); }
    }
  }

  /** Merging keeps the sizes right. */
  lemma MergedSized(cmds: seq<Command>, i: nat)
    requires Mergeable(cmds, i) && AllSized(cmds) && Unaddressed(cmds)
    ensures AllSized(Merged(cmds, i)) && Unaddressed(Merged(cmds, i))
  {
  }

  /** Merging moves no other command's native address; the move takes the address of the push, and nothing
      has that of the pop any more. */
  lemma {:induction false} MergeKeepsAddresses(cmds: seq<Command>, i: nat, j: nat)
    requires Mergeable(cmds, i) && !cmds[i].isSkip && !cmds[i + 1].isSkip && j <= |cmds|
    ensures var m := Merged(cmds, i); NativeAt(m, j) == if j == i + 1 then NativeAt(cmds, i) else NativeAt(cmds, j)
  {
    var m := Merged(cmds, i);
    if j > 0 {
      MergeKeepsAddresses(cmds, i, j - 1);
      if j - 1 == i + 1 {
        assert NativeAt(cmds, i + 2) == NativeAt(cmds, i) + cmds[i].nativeSize + cmds[i + 1].nativeSize;
      }
    }
  }
}
