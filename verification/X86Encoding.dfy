/** The translator's commands: the x86 bytes each becomes, and the size the parser reserves for it. */
module X86Encoding {
  type Byte = b: int | 0 <= b < 256

  /** The bits of a double. */
  type Double = s: seq<Byte> | |s| == 8 witness seq(8, _ => 0)

  datatype Name = HLT | PUSH | MUL | ADD | SUB | DIV | POP | OUT | JMP | JG | JGE | JA | JAE | JE | JNE | IN | CALL | RET | SQR
                | MOV_REG_NUM

  const IMM := 32
  const REG := 64
  const RAM := 128

  /** `value` is the number of a push or pop, `target` where a jump goes: an address of the native code
      first, of the x86 code after the labels are filled in. */
  datatype Command = Command(name: Name, nativeSize: nat, x86Size: nat, nativeIp: nat, x86Ip: nat,
                             regIndex: nat, value: Double, target: int, checksum: nat, isSkip: bool)

  predicate IsJump(name: Name) {
    name == JMP || name == JG || name == JGE || name == JA || name == JAE || name == JE || name == JNE || name == CALL
  }

  predicate IsCondition(name: Name) { IsJump(name) && name != JMP && name != CALL }

  predicate IsMath(name: Name) { name == MUL || name == ADD || name == SUB || name == DIV }

  predicate TouchesRam(checksum: nat) { checksum == REG + RAM || checksum == IMM + REG + RAM }

  // ----- Reserved sizes -----

  function NativeSize(name: Name): nat {
    if name == PUSH || name == POP || IsJump(name) then 10 else 1
  }

  /** The size table, and for push and pop the size of the form at hand. */
  function ReservedSize(name: Name, checksum: nat): nat {
    if name == PUSH then
      if checksum == IMM then 11 else if checksum == REG then 1 else if checksum == IMM + RAM then 8
      else if TouchesRam(checksum) then 34 else 0
    else if name == POP then
      if checksum == IMM || checksum == REG then 1 else if checksum == IMM + RAM then 8
      else if TouchesRam(checksum) then 34 else 0
    else if name == HLT then 7 else if name == OUT then 41 else if name == IN then 18 else if name == RET then 1
    else if name == SQR then 16 else if name == MOV_REG_NUM then 10
    else if IsMath(name) || IsCondition(name) then 26
    else 5
  }

  /** What the parser makes of one native command. */
  function Formed(name: Name, regIndex: nat, value: Double, target: int, checksum: nat): Command {
    Command(name, NativeSize(name), ReservedSize(name, checksum), 0, 0, regIndex, value, target, checksum, false)
  }

  predicate FromParser(c: Command) { c == Formed(c.name, c.regIndex, c.value, c.target, c.checksum) }

  // ----- Bytes -----

  const WORD := 0x1_0000_0000

  /** The `k` low bytes of a number, lowest first. */
  function Low(n: nat, k: nat): (b: seq<Byte>)
    ensures |b| == k
  {
    if k == 0 then [] else [n % 256] + Low(n / 256, k - 1)
  }

  /** A relative address as four bytes: negative ones wrap around. */
  function Relative(v: int): seq<Byte> { Low(v % WORD, 4) }

  const XMM0_FROM_STACK := 0x002444100FF2
  const XMM1_FROM_STACK_8 := 0x08244C100FF2
  const STACK_FROM_XMM0 := 0x002444110FF2
  const ADD_RSP_8 := 0x08C48348
  const ADD_RSP_16 := 0x10C48348

  function MathMask(name: Name): nat {
    match name case ADD => 0x58 case MUL => 0x59 case SUB => 0x5c case DIV => 0x5e case _ => 0
  }

  function ConditionMask(name: Name): nat {
    match name case JE => 0x84 case JNE => 0x85 case JG => 0x8f case JAE => 0x83 case JGE => 0x8d case JA => 0x87 case _ => 0
  }

  /** The register's number as a byte offset into memory, in rsi. */
  function RegToRsi(c: Command): seq<Byte> {
    Low(0x50 + c.regIndex, 1) + Low(XMM0_FROM_STACK, 6) + Low(ADD_RSP_8, 4) + Low(0xF02D0F48F2, 5) + Low(0x03E6C148, 4)
  }

  function PushImmRam(offset: nat): seq<Byte> { Low(0xBA8B49, 3) + Low(offset, 4) + Low(0x57, 1) }

  function PopImmRam(offset: nat): seq<Byte> { Low(0x5F, 1) + Low(0xBA8949, 3) + Low(offset, 4) }

  /** The memory pointer moved, the access, the pointer moved back. */
  function PushRegRam(c: Command, offset: nat): seq<Byte> {
    RegToRsi(c) + Low(0xF20149, 3) + PushImmRam(offset) + Low(0xF22949, 3)
  }

  function PopRegRam(c: Command, offset: nat): seq<Byte> {
    RegToRsi(c) + Low(0xF20149, 3) + PopImmRam(offset) + Low(0xF22949, 3)
  }

  function PushPop(c: Command, offset: nat): seq<Byte> {
    if c.checksum == IMM then Low(0xBE48, 2) + c.value + Low(0x56, 1)
    else if c.checksum == REG then Low((if c.name == PUSH then 0x50 else 0x58) + c.regIndex, 1)
    else if c.checksum == IMM + RAM then
      if c.name == PUSH then PushImmRam(offset) else PopImmRam(offset)
    else if TouchesRam(c.checksum) then
      if c.name == PUSH then PushRegRam(c, offset) else PopRegRam(c, offset)
    else []
  }

  /** The number to print as an integer, and the registers saved. */
  function OutNumber(): seq<Byte> {
    Low(XMM0_FROM_STACK, 6) + Low(0xF02D0F48F2, 5) + Low(0x56, 1) + Low(0x58, 1) + Low(0x505152535241, 6)
  }

  /** Stack and registers restored. */
  function OutEnd(): seq<Byte> { Low(0xE4894C, 3) + Low(0x5A415B5A5958, 6) + Low(0x5F, 1) }

  /** Prints through the routine that follows the last command. */
  function Out(c: Command, counter: nat): seq<Byte> {
    OutNumber() + Low(0xE48949, 3) + Low(0xF0E48348, 4) + Low(0xE8, 1) + Relative(counter - c.x86Ip - 27 - 4) + OutEnd()
  }

  const PRINTF_LEN := 219

  /** Reads through the routine behind that. */
  function In(c: Command, counter: nat): seq<Byte> {
    Low(0x505152535241, 6) + Low(0xE8, 1) + Relative(counter - c.x86Ip - 7 - 4 + PRINTF_LEN)
    + Low(0x5A415B5A5958, 6) + Low(0x56, 1)
  }

  function Math(c: Command): seq<Byte> {
    Low(XMM0_FROM_STACK, 6) + Low(XMM1_FROM_STACK_8, 6) + Low(ADD_RSP_8, 4) + Low(0xC1000FF2 + MathMask(c.name) * 0x1_0000, 4)
    + Low(STACK_FROM_XMM0, 6)
  }

  function Condition(c: Command): seq<Byte> {
    Low(XMM0_FROM_STACK, 6) + Low(XMM1_FROM_STACK_8, 6) + Low(ADD_RSP_16, 4) + Low(0xC12E0F66, 4)
    + Low(0x0F + ConditionMask(c.name) * 0x100, 2) + Relative(c.target - (c.x86Ip + 2 + 4 + 20))
  }

  function Jump(c: Command): seq<Byte> {
    Low(if c.name == CALL then 0xE8 else 0xE9, 1) + Relative(c.target - (c.x86Ip + 1 + 4))
  }

  function Root(): seq<Byte> { Low(XMM0_FROM_STACK, 6) + Low(0xC0510F66, 4) + Low(STACK_FROM_XMM0, 6) }

  function Move(c: Command): seq<Byte> { Low(0x48 + (0xb8 + c.regIndex) * 0x100, 2) + c.value }

  /** The bytes of a command; `counter` is the size of all commands, `offset` its number as a RAM offset. */
  function Encoding(c: Command, counter: nat, offset: nat): seq<Byte> {
    if c.name == PUSH || c.name == POP then PushPop(c, offset)
    else if c.name == HLT then Low(0x050fff31583c6a, 7)
    else if c.name == OUT then Out(c, counter)
    else if c.name == IN then In(c, counter)
    else if c.name == RET then Low(0xC3, 1)
    else if c.name == SQR then Root()
    else if c.name == MOV_REG_NUM then Move(c)
    else if IsMath(c.name) then Math(c)
    else if IsCondition(c.name) then Condition(c)
    else Jump(c)
  }

  /** The reserved size is the size emitted, except for popping into a number: one byte is reserved for it
      and eleven are emitted. */
  lemma SizedIff(c: Command, counter: nat, offset: nat)
    requires c.x86Size == ReservedSize(c.name, c.checksum)
    ensures |Encoding(c, counter, offset)| == c.x86Size <==> !(c.name == POP && c.checksum == IMM)
  {
    hide Low, Relative;
    if c.name == PUSH || c.name == POP { PushPopSize(c, offset); }
    RelativeSize(counter - c.x86Ip - 27 - 4);
    RelativeSize(counter - c.x86Ip - 7 - 4 + PRINTF_LEN);
    RelativeSize(c.target - (c.x86Ip + 2 + 4 + 20));
    RelativeSize(c.target - (c.x86Ip + 1 + 4));
  }

  lemma PushPopSize(c: Command, offset: nat)
    requires c.name == PUSH || c.name == POP
    ensures |PushPop(c, offset)| == if c.name == POP && c.checksum == IMM then 11 else ReservedSize(c.name, c.checksum)
  {
    hide Low;
  }

  lemma RelativeSize(v: int)
    ensures |Relative(v)| == 4
  {
  }

  /** What a relative address stored so that the next instruction is at `after` makes it jump to. */
  function Landing(after: nat, v: int): nat { (after + v % WORD) % WORD }

  lemma LandsAt(after: nat, v: int, at: nat)
    requires after + v == at && at < WORD
    ensures Landing(after, v) == at
  {
  }

  /** The four bytes at `p` as a number. */
  function Stored(code: seq<Byte>, p: nat): nat
    requires p + 4 <= |code|
  {
    code[p] as int + 0x100 * code[p + 1] as int + 0x1_0000 * code[p + 2] as int + 0x100_0000 * code[p + 3] as int
  }

  lemma RelativeStored(v: int)
    ensures Stored(Relative(v), 0) == v % WORD
  {
    var n: nat := v % WORD;
    assert Low(n, 4) == [n % 256] + Low(n / 256, 3);
    assert Low(n / 256, 3) == [n / 256 % 256] + Low(n / 256 / 256, 2);
    assert Low(n / 256 / 256, 2) == [n / 256 / 256 % 256] + Low(n / 256 / 256 / 256, 1);
    assert Low(n / 256 / 256 / 256, 1) == [n / 256 / 256 / 256 % 256] + Low(n / 256 / 256 / 256 / 256, 0);
    FourBytes(n);
  }

  lemma FourBytes(n: nat)
    requires n < WORD
    ensures n == n % 256 + 0x100 * (n / 256 % 256) + 0x1_0000 * (n / 256 / 256 % 256) + 0x100_0000 * (n / 256 / 256 / 256 % 256)
  {
    var a := n / 256;
    var b := a / 256;
    var d := b / 256;
    assert n == 256 * a + n % 256 && a == 256 * b + a % 256 && b == 256 * d + b % 256;
    assert d < 256;
  }
}
