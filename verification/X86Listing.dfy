/** The machine code of every command, byte by byte, one bracket an instruction. */
module X86Listing {
  import opened X86Encoding
  import opened X86Layout

  /** A relative address or an offset in four bytes, lowest first. */
  predicate Four(b: seq<Byte>, v: int) { |b| == 4 && Spells(v % 0x1_0000_0000, b) }

  /** Byte `i`, or nothing beyond the end. */
  function Digit(b: seq<Byte>, i: nat): nat { if i < |b| then b[i] else 0 }

  /** `n` with its lowest byte first, in at most eight bytes. */
  predicate Spells(n: nat, b: seq<Byte>) {
    && |b| <= 8
    && n == Digit(b, 0) + 0x100 * Digit(b, 1) + 0x1_0000 * Digit(b, 2) + 0x100_0000 * Digit(b, 3)
            + 0x1_0000_0000 * Digit(b, 4) + 0x100_0000_0000 * Digit(b, 5) + 0x1_0000_0000_0000 * Digit(b, 6)
            + 0x100_0000_0000_0000 * Digit(b, 7)
  }

  /** movsd xmm0, [rsp] */
  const LOAD_XMM0: seq<Byte> := [0xF2, 0x0F, 0x10, 0x44, 0x24, 0x00]

  /** movsd xmm1, [rsp + 8] */
  const LOAD_XMM1: seq<Byte> := [0xF2, 0x0F, 0x10, 0x4C, 0x24, 0x08]

  /** movsd [rsp], xmm0 */
  const STORE_XMM0: seq<Byte> := [0xF2, 0x0F, 0x11, 0x44, 0x24, 0x00]

  /** cvtsd2si rsi, xmm0 */
  const TO_INTEGER: seq<Byte> := [0xF2, 0x48, 0x0F, 0x2D, 0xF0]

  /** The registers saved and restored around a call. */
  const PUSH_ALL: seq<Byte> := [0x41, 0x52, 0x53, 0x52, 0x51, 0x50]
  const POP_ALL: seq<Byte> := [0x58, 0x59, 0x5A, 0x5B, 0x41, 0x5A]

  /** add rsp, 8 and add rsp, 16 */
  const DROP_ONE: seq<Byte> := [0x48, 0x83, 0xC4, 0x08]
  const DROP_TWO: seq<Byte> := [0x48, 0x83, 0xC4, 0x10]

  lemma {:induction false} Bytes(n: nat, b: seq<Byte>)
    requires Spells(n, b)
    ensures Low(n, |b|) == b
  {
    if |b| > 0 {
      assert n % 256 == b[0];
      NextByte(n, b);
      Bytes(n / 256, b[1..]);
      assert b == [b[0]] + b[1..];
    }
  }

  lemma NextByte(n: nat, b: seq<Byte>)
    requires Spells(n, b) && |b| > 0
    ensures Spells(n / 256, b[1..])
  {
    var t := b[1..];
    forall i: nat | i < 8 ensures Digit(t, i) == Digit(b, i + 1) {}
    assert Digit(b, 1) == Digit(t, 0) && Digit(b, 2) == Digit(t, 1) && Digit(b, 3) == Digit(t, 2);
    assert Digit(b, 4) == Digit(t, 3) && Digit(b, 5) == Digit(t, 4) && Digit(b, 6) == Digit(t, 5);
    assert Digit(b, 7) == Digit(t, 6) && Digit(t, 7) == 0;
  }

  lemma Loads()
    ensures Low(XMM0_FROM_STACK, 6) == LOAD_XMM0 && Low(XMM1_FROM_STACK_8, 6) == LOAD_XMM1
    ensures Low(STACK_FROM_XMM0, 6) == STORE_XMM0
  {
    hide Low;
    Bytes(XMM0_FROM_STACK, LOAD_XMM0);
    Bytes(XMM1_FROM_STACK_8, LOAD_XMM1);
    Bytes(STACK_FROM_XMM0, STORE_XMM0);
  }

  lemma Saves()
    ensures Low(0xF02D0F48F2, 5) == TO_INTEGER && Low(0x505152535241, 6) == PUSH_ALL && Low(0x5A415B5A5958, 6) == POP_ALL
    ensures Low(ADD_RSP_8, 4) == DROP_ONE && Low(ADD_RSP_16, 4) == DROP_TWO
  {
    hide Low;
    Bytes(0xF02D0F48F2, TO_INTEGER);
    Bytes(0x505152535241, PUSH_ALL);
    Bytes(0x5A415B5A5958, POP_ALL);
    Bytes(ADD_RSP_8, DROP_ONE);
    Bytes(ADD_RSP_16, DROP_TWO);
  }

  lemma LowSpells(n: nat)
    requires n < 0x1_0000_0000
    ensures Four(Low(n, 4), n)
  {
    var a := n / 256;
    var b := a / 256;
    var c := b / 256;
    assert Low(n, 4) == [n % 256] + Low(a, 3);
    assert Low(a, 3) == [a % 256] + Low(b, 2);
    assert Low(b, 2) == [b % 256] + Low(c, 1);
    assert Low(c, 1) == [c % 256] + Low(c / 256, 0);
    assert Low(n, 4) == [n % 256, a % 256, b % 256, c];
  }

  lemma RelativeSpells(v: int)
    ensures Four(Relative(v), v)
  {
    hide Low;
    LowSpells(v % 0x1_0000_0000);
  }

  // ----- The commands -----

  /** ADD, SUB, MUL and DIV differ in one byte. */
  lemma MathListing(c: Command, counter: nat, offset: nat)
    requires c.name == ADD || c.name == SUB || c.name == MUL || c.name == DIV
    ensures Encoding(c, counter, offset) ==
      LOAD_XMM0 + LOAD_XMM1 + DROP_ONE
      + [0xF2, 0x0F, if c.name == ADD then 0x58 else if c.name == SUB then 0x5C else if c.name == MUL then 0x59 else 0x5E, 0xC1]
      + STORE_XMM0
  {
    hide Low;
    Loads();
    Saves();
    Bytes(0xC1000FF2 + MathMask(c.name) * 0x1_0000,
          [0xF2, 0x0F, if c.name == ADD then 0x58 else if c.name == SUB then 0x5C else if c.name == MUL then 0x59 else 0x5E, 0xC1]);
  }

  function ConditionCode(name: Name): Byte {
    if name == JE then 0x84 else if name == JNE then 0x85 else if name == JG then 0x8F else if name == JGE then 0x8D
    else if name == JA then 0x87 else 0x83
  }

  /** The condition is one byte as well; the jump counts from its own end. */
  lemma ConditionListing(c: Command, counter: nat, offset: nat) returns (rel: seq<Byte>)
    requires c.name == JE || c.name == JNE || c.name == JG || c.name == JGE || c.name == JA || c.name == JAE
    ensures Four(rel, c.target - (c.x86Ip + 26))
    ensures Encoding(c, counter, offset) ==
      LOAD_XMM0 + LOAD_XMM1 + DROP_TWO + [0x66, 0x0F, 0x2E, 0xC1]
      + [0x0F, ConditionCode(c.name)] + rel
  {
    hide Low, Relative, Four, Spells, ConditionMask, ConditionCode, PushPop, Out, In, Math, Jump, Root, Move;
    Loads();
    Saves();
    ConditionBytes(c.name);
    rel := Relative(c.target - (c.x86Ip + 26));
    RelativeSpells(c.target - (c.x86Ip + 26));
  }

  lemma ConditionBytes(name: Name)
    requires name == JE || name == JNE || name == JG || name == JGE || name == JA || name == JAE
    ensures Low(0xC12E0F66, 4) == [0x66, 0x0F, 0x2E, 0xC1]
    ensures Low(0x0F + ConditionMask(name) * 0x100, 2) ==
            [0x0F, ConditionCode(name)]
  {
    hide Low;
    Bytes(0xC12E0F66, [0x66, 0x0F, 0x2E, 0xC1]);
    Bytes(0x0F + ConditionMask(name) * 0x100, [0x0F, ConditionCode(name)]);
  }

  lemma OneBytes()
    ensures Low(0xE8, 1) == [0xE8] && Low(0xE9, 1) == [0xE9] && Low(0x56, 1) == [0x56] && Low(0x57, 1) == [0x57]
    ensures Low(0x58, 1) == [0x58] && Low(0x5F, 1) == [0x5F]
  {
    hide Low;
    Bytes(0xE8, [0xE8]);
    Bytes(0xE9, [0xE9]);
    Bytes(0x56, [0x56]);
    Bytes(0x57, [0x57]);
    Bytes(0x58, [0x58]);
    Bytes(0x5F, [0x5F]);
  }

  lemma JumpListing(c: Command, counter: nat, offset: nat) returns (rel: seq<Byte>)
    requires c.name == JMP || c.name == CALL
    ensures Four(rel, c.target - (c.x86Ip + 5))
    ensures Encoding(c, counter, offset) == [if c.name == CALL then 0xE8 else 0xE9] + rel
  {
    hide Low, Relative, Four, Spells, PushPop, Out, In, Math, Condition, Root, Move;
    OneBytes();
    rel := Relative(c.target - (c.x86Ip + 5));
    RelativeSpells(c.target - (c.x86Ip + 5));
  }

  /** RET, HLT, SQR and the move of a number into a register. */
  lemma PlainListing(c: Command, counter: nat, offset: nat)
    ensures c.name == RET ==> Encoding(c, counter, offset) == [0xC3]
    ensures c.name == HLT ==> Encoding(c, counter, offset) == [0x6A, 0x3C, 0x58, 0x31, 0xFF, 0x0F, 0x05]
    ensures c.name == SQR ==> Encoding(c, counter, offset) == LOAD_XMM0 + [0x66, 0x0F, 0x51, 0xC0] + STORE_XMM0
  {
    hide Low;
    Loads();
    Bytes(0xC3, [0xC3]);
    Bytes(0x050fff31583c6a, [0x6A, 0x3C, 0x58, 0x31, 0xFF, 0x0F, 0x05]);
    Bytes(0xC0510F66, [0x66, 0x0F, 0x51, 0xC0]);
  }

  lemma MoveListing(c: Command, counter: nat, offset: nat)
    requires c.name == MOV_REG_NUM && c.regIndex < 8
    ensures Encoding(c, counter, offset) == [0x48, 0xB8 + c.regIndex] + c.value
  {
    hide Low;
    Bytes(0x48 + (0xb8 + c.regIndex) * 0x100, [0x48, 0xB8 + c.regIndex]);
  }

  /** What the parser reserves: ten bytes of native code for an argument or a target, one without, and as many
      x86 bytes as will be emitted unless a number is popped into. */
  lemma FormedSizes(name: Name, regIndex: nat, value: Double, target: int, checksum: nat, counter: nat, offset: nat)
    ensures var c := Formed(name, regIndex, value, target, checksum);
      && c.nativeSize == (if name in {PUSH, POP, JMP, CALL, JE, JNE, JG, JGE, JA, JAE} then 10 else 1)
      && (c.x86Size == |Encoding(c, counter, offset)| <==> !(name == POP && checksum == 32))
      && (name == POP && checksum == 32 ==> c.x86Size == 1)
  {
    hide Encoding;
    SizedIff(Formed(name, regIndex, value, target, checksum), counter, offset);
  }

  /** mov r10, 0x4017e8: memory begins 6000 bytes behind the entry point. */
  lemma PrologueListing(cmds: seq<Command>, counter: nat, offset: Offset)
    ensures Emitted(cmds, counter, offset, 0) == [0x49, 0xBA] + [0xE8, 0x17, 0x40, 0x00, 0x00, 0x00, 0x00, 0x00]
  {
    hide Low;
    Bytes(0xBA49, [0x49, 0xBA]);
    Bytes(0x400078 + 6000, [0xE8, 0x17, 0x40, 0x00, 0x00, 0x00, 0x00, 0x00]);
  }

  lemma FrameBytes()
    ensures Low(0xE48949, 3) == [0x49, 0x89, 0xE4] && Low(0xF0E48348, 4) == [0x48, 0x83, 0xE4, 0xF0]
    ensures Low(0xE4894C, 3) == [0x4C, 0x89, 0xE4]
  {
    hide Low;
    Bytes(0xE48949, [0x49, 0x89, 0xE4]);
    Bytes(0xF0E48348, [0x48, 0x83, 0xE4, 0xF0]);
    Bytes(0xE4894C, [0x4C, 0x89, 0xE4]);
  }

  lemma OutListing(c: Command, counter: nat, offset: nat) returns (rel: seq<Byte>)
    requires c.name == OUT
    ensures Four(rel, counter - (c.x86Ip + 31))
    ensures Encoding(c, counter, offset) ==
      (LOAD_XMM0 + TO_INTEGER + [0x56] + [0x58] + PUSH_ALL)
      + [0x49, 0x89, 0xE4] + [0x48, 0x83, 0xE4, 0xF0] + [0xE8] + rel + ([0x4C, 0x89, 0xE4] + POP_ALL + [0x5F])
  {
    hide Low, Relative, Four, Spells, PushPop, In, Math, Condition, Jump, Root, Move;
    Loads();
    Saves();
    OneBytes();
    FrameBytes();
    rel := Relative(counter - (c.x86Ip + 31));
    RelativeSpells(counter - (c.x86Ip + 31));
  }

  lemma InListing(c: Command, counter: nat, offset: nat) returns (rel: seq<Byte>)
    requires c.name == IN
    ensures Four(rel, counter + 219 - (c.x86Ip + 11))
    ensures Encoding(c, counter, offset) == PUSH_ALL + [0xE8] + rel + POP_ALL + [0x56]
  {
    hide Low, Relative, Four, Spells, PushPop, Out, Math, Condition, Jump, Root, Move;
    Saves();
    OneBytes();
    rel := Relative(counter + 219 - (c.x86Ip + 11));
    RelativeSpells(counter + 219 - (c.x86Ip + 11));
  }

  /** push and pop of a number and of a register; the code for a number is the same. */
  lemma PushPopListing(c: Command, counter: nat, offset: nat)
    requires c.name == PUSH || c.name == POP
    ensures c.checksum == 32 ==> Encoding(c, counter, offset) == [0x48, 0xBE] + c.value + [0x56]
    ensures c.checksum == 64 && c.regIndex < 8 ==>
      Encoding(c, counter, offset) == [(if c.name == PUSH then 0x50 else 0x58) + c.regIndex]
    ensures c.checksum !in {32, 64, 160, 192, 224} ==> Encoding(c, counter, offset) == []
  {
    hide Low;
    OneBytes();
    Bytes(0xBE48, [0x48, 0xBE]);
    if c.regIndex < 8 {
      Bytes((if c.name == PUSH then 0x50 else 0x58) + c.regIndex, [(if c.name == PUSH then 0x50 else 0x58) + c.regIndex]);
    }
  }

  /** The access to memory at r10 plus an offset. */
  function RamAccess(name: Name, rel: seq<Byte>): seq<Byte> {
    if name == PUSH then [0x49, 0x8B, 0xBA] + rel + [0x57] else [0x5F] + [0x49, 0x89, 0xBA] + rel
  }

  lemma RegisterByte(b: Byte)
    ensures Low(b, 1) == [b]
  {
  }

  lemma MemoryBytes()
    ensures Low(0xBA8B49, 3) == [0x49, 0x8B, 0xBA] && Low(0xBA8949, 3) == [0x49, 0x89, 0xBA]
    ensures Low(0x03E6C148, 4) == [0x48, 0xC1, 0xE6, 0x03]
    ensures Low(0xF20149, 3) == [0x49, 0x01, 0xF2] && Low(0xF22949, 3) == [0x49, 0x29, 0xF2]
  {
    hide Low;
    Bytes(0xBA8B49, [0x49, 0x8B, 0xBA]);
    Bytes(0xBA8949, [0x49, 0x89, 0xBA]);
    Bytes(0x03E6C148, [0x48, 0xC1, 0xE6, 0x03]);
    Bytes(0xF20149, [0x49, 0x01, 0xF2]);
    Bytes(0xF22949, [0x49, 0x29, 0xF2]);
  }

  lemma RamListing(c: Command, counter: nat, offset: nat) returns (rel: seq<Byte>)
    requires (c.name == PUSH || c.name == POP) && offset < 0x1_0000_0000
    ensures Four(rel, offset)
    ensures c.checksum == 160 ==> Encoding(c, counter, offset) == RamAccess(c.name, rel)
    ensures (c.checksum == 192 || c.checksum == 224) && c.regIndex < 8 ==>
      Encoding(c, counter, offset) ==
        ([0x50 + c.regIndex] + LOAD_XMM0 + DROP_ONE + TO_INTEGER + [0x48, 0xC1, 0xE6, 0x03])
        + [0x49, 0x01, 0xF2] + RamAccess(c.name, rel) + [0x49, 0x29, 0xF2]
  {
    hide Low, Four, Spells, Out, In, Math, Condition, Jump, Root, Move;
    rel := Low(offset, 4);
    LowSpells(offset);
    Loads();
    Saves();
    OneBytes();
    MemoryBytes();
    if c.regIndex < 8 { RegisterByte(0x50 + c.regIndex); }
  }
}
