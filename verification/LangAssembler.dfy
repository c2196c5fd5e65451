/** The two-pass assembler: the first pass learns where labels are, the second fills them in. */
module LangAssembler {
  import opened LangSyntax
  import opened LangOperands
  import opened Wrappers

  const HEADER := 8

  function Size(line: Line): nat {
    match line
    case Comment => 0
    case LabelDef(_) => 0
    case Plain(_) => 1
    case Push(_) => 10
    case Pop(_) => 10
    case Jump(_, _) => 10
  }

  /** The byte at which line `k` starts. */
  function Pos(lines: seq<Line>, k: nat): (p: nat)
    requires k <= |lines|
    ensures HEADER <= p <= HEADER + 10 * k
  {
    if k == 0 then HEADER else Pos(lines, k - 1) + Size(lines[k - 1])
  }

  datatype Entry = Entry(name: Label, pos: int)

  function Find(table: seq<Entry>, name: Label): Option<int> {
    if table == [] then None
    else if table[0].name == name then Some(table[0].pos)
    else Find(table[1..], name)
  }

  /** The first definition of a label wins. */
  function AddLabel(table: seq<Entry>, name: Label, pos: int): seq<Entry> {
    if Find(table, name).Some? then table else table + [Entry(name, pos)]
  }

  /** The table after the first `k` lines of a pass that started with `table`. */
  function TableFrom(table: seq<Entry>, lines: seq<Line>, k: nat): seq<Entry>
    requires k <= |lines|
  {
    if k == 0 then table
    else
      var t := TableFrom(table, lines, k - 1);
      if lines[k - 1].LabelDef? then AddLabel(t, lines[k - 1].name, Pos(lines, k - 1)) else t
  }

  function Table(lines: seq<Line>): seq<Entry> { TableFrom([], lines, |lines|) }

  /** Where a jump goes; -1 while its label is unknown. */
  function Target(table: seq<Entry>, name: Label): int {
    match Find(table, name) case Some(p) => p case None => -1
  }

  function Flags(arg: Operand): nat {
    (if arg.Reg? then 0 else 32) + (if arg.Imm? then 0 else 64) + (if arg.mem then 128 else 0)
  }

  predicate OperandAt(code: seq<Byte>, p: nat, cmd: Byte, arg: Operand) {
    && p + 10 <= |code| && code[p] == cmd + Flags(arg)
    && (!arg.Reg? ==> code[p + 1..p + 9] == arg.v)
    && (!arg.Imm? ==> code[p + 9] == arg.r)
  }

  /** The bytes that matter of `line` are at `p`. */
  predicate CodeAt(a: Arith, code: seq<Byte>, p: nat, line: Line, table: seq<Entry>) {
    match line
    case Comment => true
    case LabelDef(_) => true
    case Plain(c) => p < |code| && code[p] == CommandCode(c)
    case Push(text) => OperandAt(code, p, PUSH, Parse(a, text))
    case Pop(text) => OperandAt(code, p, POP, Parse(a, text))
    case Jump(k, name) =>
      p + 10 <= |code| && code[p] == JumpCode(k) && code[p + 1..p + 9] == a.ofInt(Target(table, name))
  }

  /** `code` holds all of `lines`, every jump resolved. */
  ghost predicate Assembled(a: Arith, code: seq<Byte>, lines: seq<Line>) {
    forall k :: 0 <= k < |lines| ==> CodeAt(a, code, Pos(lines, k), lines[k], Table(lines))
  }

  lemma CodeAtPrefix(a: Arith, code: seq<Byte>, code': seq<Byte>, n: nat, p: nat, line: Line, table: seq<Entry>)
    requires n <= |code| && n <= |code'| && code[..n] == code'[..n] && p + Size(line) <= n && CodeAt(a, code, p, line, table)
    ensures CodeAt(a, code', p, line, table)
  {
    assert forall i :: 0 <= i < n ==> code[i] == code[..n][i] == code'[i];
    if Size(line) == 10 {
      assert code[p + 1..p + 9] == code'[p + 1..p + 9];
    }
  }

  lemma {:induction false} PosMonotone(lines: seq<Line>, j: nat, k: nat)
    requires j < k <= |lines|
    ensures Pos(lines, j) + Size(lines[j]) <= Pos(lines, k)
  {
    if j + 1 < k { PosMonotone(lines, j, k - 1); }
  }

  lemma {:induction false} FindAppend(table: seq<Entry>, e: Entry, name: Label)
    ensures Find(table + [e], name) == if Find(table, name).Some? then Find(table, name)
                                       else if e.name == name then Some(e.pos) else None
  {
    if table != [] {
      assert (table + [e])[1..] == table[1..] + [e];
      FindAppend(table[1..], e, name);
    } else {
      assert [e][1..] == [];
    }
  }

  /** After a pass every label it met is in the table, and nothing found before is lost. */
  lemma {:induction false} TableKeeps(table: seq<Entry>, lines: seq<Line>, k: nat, name: Label)
    requires k <= |lines|
    ensures Find(table, name).Some? ==> Find(TableFrom(table, lines, k), name) == Find(table, name)
    ensures forall j :: 0 <= j < k && lines[j] == LabelDef(name) ==> Find(TableFrom(table, lines, k), name).Some?
  {
    if k > 0 {
      TableKeeps(table, lines, k - 1, name);
      if lines[k - 1].LabelDef? {
        FindAppend(TableFrom(table, lines, k - 1), Entry(lines[k - 1].name, Pos(lines, k - 1)), name);
      }
    }
  }

  /** A second pass over the same lines leaves the table alone. */
  lemma {:induction false} SecondPass(lines: seq<Line>, k: nat)
    requires k <= |lines|
    ensures TableFrom(Table(lines), lines, k) == Table(lines)
  {
    if k > 0 {
      SecondPass(lines, k - 1);
      if lines[k - 1].LabelDef? {
        TableKeeps([], lines, |lines|, lines[k - 1].name);
      }
    }
  }

  /** A label defined on one line only is resolved to that line's position. */
  lemma {:induction false} UniqueLabel(lines: seq<Line>, k: nat, j: nat, name: Label)
    requires j < |lines| && k <= |lines| && lines[j] == LabelDef(name)
    requires forall i :: 0 <= i < |lines| && i != j ==> lines[i] != LabelDef(name)
    ensures Find(TableFrom([], lines, k), name) == if j < k then Some(Pos(lines, j)) else None
  {
    if k > 0 {
      UniqueLabel(lines, k - 1, j, name);
      if lines[k - 1].LabelDef? {
        FindAppend(TableFrom([], lines, k - 1), Entry(lines[k - 1].name, Pos(lines, k - 1)), name);
      }
    }
  }

  /** Lines already written stay, as long as the bytes before line `k` do. */
  lemma LinesKept(a: Arith, code: seq<Byte>, code': seq<Byte>, lines: seq<Line>, k: nat, table: seq<Entry>)
    requires k <= |lines| && Pos(lines, k) <= |code| && Pos(lines, k) <= |code'|
    requires code[..Pos(lines, k)] == code'[..Pos(lines, k)]
    requires forall j :: 0 <= j < k ==> CodeAt(a, code, Pos(lines, j), lines[j], table)
    ensures forall j :: 0 <= j < k ==> CodeAt(a, code', Pos(lines, j), lines[j], table)
  {
    hide CodeAt, Pos, Size;
    forall j | 0 <= j < k ensures CodeAt(a, code', Pos(lines, j), lines[j], table) {
      PosMonotone(lines, j, k);
      CodeAtPrefix(a, code, code', Pos(lines, k), Pos(lines, j), lines[j], table);
    }
  }

  lemma PassBegins(table: seq<Entry>, lines: seq<Line>)
    ensures TableFrom(table, lines, 0) == table && Pos(lines, 0) == HEADER
  {
  }

  lemma PassStep(table: seq<Entry>, lines: seq<Line>, k: nat)
    requires k < |lines|
    ensures Pos(lines, k + 1) == Pos(lines, k) + Size(lines[k])
    ensures var t := TableFrom(table, lines, k);
      TableFrom(table, lines, k + 1) ==
      if lines[k].LabelDef? then AddLabel(t, lines[k].name, Pos(lines, k)) else t
  {
  }

  /** The length field of the program header: an int, lowest byte first. */
  function IntAt(code: seq<Byte>, p: nat): nat
    requires p + 4 <= |code|
  {
    code[p] as int + 0x100 * code[p + 1] as int + 0x1_0000 * code[p + 2] as int + 0x100_0000 * code[p + 3] as int
  }

  class Assembler {
    const a: Arith
    const commands: array<Byte>
    var curLen: nat
    var labels: seq<Entry>

    constructor (a: Arith, linesAmount: nat)
      ensures this.a == a && fresh(commands) && commands.Length == 32 * linesAmount
      ensures curLen == HEADER && labels == []
    {
      this.a := a;
      commands := new Byte[32 * linesAmount](_ => 0);
      curLen, labels := HEADER, [];
    }

    method FindLabel(name: Label) returns (index: int)
      ensures if Find(labels, name).Some? then 0 <= index < |labels| && labels[index].pos == Find(labels, name).value
              else index == -1
    {
      index := 0;
      while index < |labels|
        invariant 0 <= index <= |labels| && Find(labels, name) == Find(labels[index..], name)
      {
        if labels[index].name == name { return; }
        index := index + 1;
      }
      index := -1;
    }

    method InsertLabel(name: Label)
      modifies this`labels
      ensures labels == AddLabel(old(labels), name, curLen)
    {
      var index := FindLabel(name);
      if index == -1 {
        labels := labels + [Entry(name, curLen)];
      }
    }

    /** An eight-byte store. */
    method StoreElem(p: nat, v: Elem)
      requires p + 8 <= commands.Length
      modifies commands
      ensures commands[p..p + 8] == v
      ensures forall i :: 0 <= i < commands.Length && !(p <= i < p + 8) ==> commands[i] == old(commands[i])
    {
      forall i | 0 <= i < 8 { commands[p + i] := v[i]; }
    }

    method ParseJmp(kind: JumpKind, name: Label) returns (len: nat)
      requires curLen + 10 <= commands.Length
      modifies commands
      ensures len == 10 && CodeAt(a, commands[..], curLen, Jump(kind, name), labels)
      ensures commands[..curLen] == old(commands[..curLen])
    {
      var index := FindLabel(name);
      if index != -1 {
        StoreElem(curLen + 1, a.ofInt(labels[index].pos));
      } else {
        StoreElem(curLen + 1, a.ofInt(-1));
      }
      commands[curLen] := JumpCode(kind);
      len := 10;
    }

    /** A number at the argument's place, announced in the command byte. */
    method StoreImm(v: Elem)
      requires curLen + 10 <= commands.Length && commands[curLen] / 32 % 2 == 0
      modifies commands
      ensures commands[curLen] == old(commands[curLen]) + 32 && commands[curLen + 1..curLen + 9] == v
      ensures commands[curLen + 9] == old(commands[curLen + 9]) && commands[..curLen] == old(commands[..curLen])
    {
      commands[curLen] := commands[curLen] + 32;
      StoreElem(curLen + 1, v);
    }

    method StoreReg(r: Byte)
      requires curLen + 10 <= commands.Length && commands[curLen] / 64 % 2 == 0
      modifies commands
      ensures commands[curLen] == old(commands[curLen]) + 64 && commands[curLen + 9] == r
      ensures commands[curLen + 1..curLen + 9] == old(commands[curLen + 1..curLen + 9])
      ensures commands[..curLen] == old(commands[..curLen])
    {
      commands[curLen] := commands[curLen] + 64;
      commands[curLen + 9] := r;
    }

    /** The three patterns one after the other; the text names a register when none of them matches. */
    method HandlePushPop(cmd: Byte, text: string) returns (len: nat)
      requires curLen + 10 <= commands.Length && cmd < 32
      modifies commands
      ensures len == 10 && OperandAt(commands[..], curLen, cmd, Parse(a, text))
      ensures commands[..curLen] == old(commands[..curLen])
    {
      hide HandleRam, NumberPlusName, NamePlusNumber, JustNumber, GetRegNum;
      len := 10;
      var (mem, line) := HandleRam(text);
      commands[curLen] := if mem then cmd + 128 else cmd;
      var sum := NumberPlusName(line);
      if sum.None? { sum := NamePlusNumber(line); }
      if sum.Some? {
        StoreImm(a.nearest(sum.value.0));
        StoreReg(GetRegNum(sum.value.1));
      } else {
        var number := JustNumber(line);
        if number.Some? {
          StoreImm(a.nearest(number.value));
        } else {
          StoreReg(GetRegNum(line));
        }
      }
      assert commands[..][curLen + 1..curLen + 9] == commands[curLen + 1..curLen + 9];
    }

    method LineToCommands(line: Line) returns (len: nat)
      requires curLen + Size(line) <= commands.Length
      modifies commands, this`labels
      ensures len == Size(line) && commands[..curLen] == old(commands[..curLen])
      ensures labels == if line.LabelDef? then AddLabel(old(labels), line.name, curLen) else old(labels)
      ensures CodeAt(a, commands[..], curLen, line, labels)
    {
      match line
      case Comment => len := 0;
      case LabelDef(name) =>
        InsertLabel(name);
        len := 0;
      case Push(text) => len := HandlePushPop(PUSH, text);
      case Pop(text) => len := HandlePushPop(POP, text);
      case Jump(kind, name) => len := ParseJmp(kind, name);
      case Plain(c) =>
        commands[curLen] := CommandCode(c);
        len := 1;
    }

    /** One pass. When the table already knows every label, the bytes it leaves are final. */
    method EachLineToBin(lines: seq<Line>)
      requires curLen == HEADER && Pos(lines, |lines|) <= commands.Length
      modifies commands, this
      ensures curLen == Pos(lines, |lines|) && labels == TableFrom(old(labels), lines, |lines|)
      ensures old(labels) == Table(lines) ==> Assembled(a, commands[..], lines)
    {
      hide CodeAt, Table, TableFrom, Size, Pos;
      ghost var table := labels;
      PassBegins(table, lines);
      var k := 0;
      while k < |lines|
        invariant 0 <= k <= |lines| && curLen == Pos(lines, k) && labels == TableFrom(table, lines, k)
        invariant table == Table(lines) ==> labels == table
        invariant table == Table(lines) ==>
          forall j :: 0 <= j < k ==> CodeAt(a, commands[..], Pos(lines, j), lines[j], table)
      {
        PosMonotone(lines, k, |lines|);
        PassStep(table, lines, k);
        ghost var before := commands[..];
        var len := LineToCommands(lines[k]);
        if table == Table(lines) {
          SecondPass(lines, k + 1);
          LinesKept(a, before, commands[..], lines, k, table);
        }
        curLen := curLen + len;
        k := k + 1;
      }
    }

    method CmdsToZero(lines: seq<Line>)
      requires 2 * |lines| <= commands.Length
      modifies commands, this`curLen
      ensures curLen == HEADER
    {
      curLen := HEADER;
      forall i | 0 <= i < 2 * |lines| { commands[i] := 0; }
    }

    /** Signature, version and length, in the bytes before the code. */
    method WriteProgramHeader(ghost lines: seq<Line>)
      requires HEADER <= curLen <= commands.Length && curLen < INT_LIMIT && Assembled(a, commands[..], lines)
      modifies commands
      ensures Assembled(a, commands[..], lines) && IntAt(commands[..], 4) == curLen
      ensures commands[..4] == [67, 85, 77, 2]
    {
      hide CodeAt, Pos, Table, IntAt;
      ghost var before := commands[..];
      commands[0], commands[1], commands[2], commands[3] := 67, 85, 77, 2;
      commands[4], commands[5] := curLen % 0x100, curLen / 0x100 % 0x100;
      commands[6], commands[7] := curLen / 0x1_0000 % 0x100, curLen / 0x100_0000;
      IntStored(commands[..], curLen);
      HeaderKept(a, before, commands[..], lines);
    }
  }

  lemma IntStored(code: seq<Byte>, n: nat)
    requires |code| >= HEADER && n < INT_LIMIT
    requires code[4] == n % 0x100 && code[5] == n / 0x100 % 0x100
    requires code[6] == n / 0x1_0000 % 0x100 && code[7] == n / 0x100_0000
    ensures IntAt(code, 4) == n
  {
    LowByte(n);
    LowByte(n / 0x100);
    LowByte(n / 0x1_0000);
    HighBytes(n);
  }

  lemma LowByte(n: nat)
    ensures n == n % 0x100 + 0x100 * (n / 0x100)
  {
  }

  lemma HighBytes(n: nat)
    ensures n / 0x1_0000 == n / 0x100 / 0x100 && n / 0x100_0000 == n / 0x1_0000 / 0x100
  {
  }

  lemma HeaderKept(a: Arith, code: seq<Byte>, code': seq<Byte>, lines: seq<Line>)
    requires |code| == |code'| && Assembled(a, code, lines) && forall i :: HEADER <= i < |code| ==> code'[i] == code[i]
    ensures Assembled(a, code', lines)
  {
    hide CodeAt, Pos, Table;
    forall k | 0 <= k < |lines| ensures CodeAt(a, code', Pos(lines, k), lines[k], Table(lines)) {
      AfterHeader(a, code, code', Pos(lines, k), lines[k], Table(lines));
    }
  }

  /** Bytes before `p` do not matter to the code at `p`. */
  lemma AfterHeader(a: Arith, code: seq<Byte>, code': seq<Byte>, p: nat, line: Line, table: seq<Entry>)
    requires HEADER <= p && |code| == |code'| && CodeAt(a, code, p, line, table)
    requires forall i :: HEADER <= i < |code| ==> code'[i] == code[i]
    ensures CodeAt(a, code', p, line, table)
  {
    if Size(line) == 10 {
      assert code[p + 1..p + 9] == code'[p + 1..p + 9];
    }
  }

  /** Both passes and the header. */
  method RawToBin(a: Arith, lines: seq<Line>) returns (code: seq<Byte>)
    requires 0 < |lines| < 0x800_0000
    ensures Assembled(a, code, lines) && |code| >= HEADER && IntAt(code, 4) == Pos(lines, |lines|)
    ensures code[..4] == [67, 85, 77, 2]
  {
    var asm := new Assembler(a, |lines|);
    asm.EachLineToBin(lines);
    asm.CmdsToZero(lines);
    asm.EachLineToBin(lines);
    asm.WriteProgramHeader(lines);
    code := asm.commands[..];
  }
}
