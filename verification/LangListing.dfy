/** The byte code in numbers: what the assembler stores for a line, and what the processor does on a byte. */
module LangListing {
  import opened LangSyntax
  import opened LangOperands
  import opened LangCompile
  import opened LangAssembler
  import opened LangMachine
  import opened LangProgram

  /** The command byte carries flags for a number (32), a register (64) and memory (128). */
  predicate ArgumentAt(code: seq<Byte>, p: nat, id: int, arg: Operand) {
    && p + 10 <= |code|
    && match arg
       case Imm(mem, v) => code[p] == id + 32 + (if mem then 128 else 0) && code[p + 1..p + 9] == v
       case Reg(mem, r) => code[p] == id + 64 + (if mem then 128 else 0) && code[p + 9] == r
       case Sum(mem, v, r) => code[p] == id + 96 + (if mem then 128 else 0) && code[p + 1..p + 9] == v && code[p + 9] == r
  }

  function PlainId(c: Command): int {
    if c == HltC then 0 else if c == MulC then 2 else if c == AddC then 3 else if c == SubC then 4 else if c == DivC then 5
    else if c == RetC then 18 else if c == SqrC then 19 else 28
  }

  lemma LineListing(a: Arith, code: seq<Byte>, p: nat, line: Line, table: seq<Entry>)
    requires CodeAt(a, code, p, line, table)
    ensures line.Push? ==> ArgumentAt(code, p, 1, Parse(a, line.arg))
    ensures line.Pop? ==> ArgumentAt(code, p, 6, Parse(a, line.arg))
    ensures line.Plain? ==> p < |code| && code[p] == PlainId(line.c)
    ensures line.Jump? ==>
      && p + 10 <= |code| && code[p + 1..p + 9] == a.ofInt(Target(table, line.dest))
      && code[p] == if line.kind == Jmp then 9 else if line.kind == Je then 14 else if line.kind == Jne then 15 else 17
  {
    hide Parse;
  }

  /** The arithmetic commands take their left operand from the top of the stack. */
  lemma ArithmeticListing(a: Arith, code: seq<Byte>, m: Machine, rest: seq<Elem>, y: Elem, x: Elem)
    requires Sized(m) && 0 <= m.ip < |code| && m.stack == rest + [y, x]
    ensures code[m.ip] == 2 ==> Step(a, code, m) == Next(m.(stack := rest + [a.mul(x, y)], ip := m.ip + 1))
    ensures code[m.ip] == 3 ==> Step(a, code, m) == Next(m.(stack := rest + [a.add(x, y)], ip := m.ip + 1))
    ensures code[m.ip] == 4 ==> Step(a, code, m) == Next(m.(stack := rest + [a.sub(x, y)], ip := m.ip + 1))
    ensures code[m.ip] == 5 ==> Step(a, code, m) == Next(m.(stack := rest + [a.div(x, y)], ip := m.ip + 1))
    ensures code[m.ip] == 19 ==> Step(a, code, m) == Next(m.(stack := rest + [y, a.sqrt(x)], ip := m.ip + 1))
  {
    assert m.stack[..|m.stack| - 2] == rest && m.stack[..|m.stack| - 1] == rest + [y];
    assert rest + [y] + [a.sqrt(x)] == rest + [y, a.sqrt(x)];
  }

  /** hlt, ret and end. */
  lemma ControlListing(a: Arith, code: seq<Byte>, m: Machine)
    requires Sized(m) && 0 <= m.ip < |code|
    ensures code[m.ip] == 0 ==> Step(a, code, m) == Halted(m)
    ensures code[m.ip] == 18 ==>
      Step(a, code, m) == if m.stack == [] then Halted(m)
                          else Next(m.(stack := m.stack[..|m.stack| - 1], ip := a.toInt(m.stack[|m.stack| - 1]) + 1))
    ensures code[m.ip] == 28 ==> Step(a, code, m) == Next(m.(ip := m.ip + 1))
  {
  }

  /** jmp, je, jne and call: the number behind the command, less one, and the loop's own step. */
  lemma JumpListing(a: Arith, code: seq<Byte>, m: Machine)
    requires Sized(m) && 0 <= m.ip && m.ip + 10 <= |code|
    ensures var goal := a.toInt(a.sub(code[m.ip + 1..m.ip + 9], a.ofInt(1))) + 1; var n := |m.stack|;
      && (code[m.ip] == 9 ==> Step(a, code, m) == Next(m.(ip := goal)))
      && (code[m.ip] == 17 ==> Step(a, code, m) == Next(m.(ip := goal, stack := m.stack + [a.ofInt(m.ip + 9)])))
      && ((code[m.ip] == 14 || code[m.ip] == 15) && n >= 2 ==>
            Step(a, code, m) == Next(m.(stack := m.stack[..n - 2],
              ip := if a.eq(m.stack[n - 1], m.stack[n - 2]) == (code[m.ip] == 14) then goal else m.ip + 10)))
  {
  }

  /** push of a number, of a register, and of RAM at their sum. */
  lemma PushListing(a: Arith, code: seq<Byte>, m: Machine)
    requires Sized(m) && 0 <= m.ip && m.ip + 10 <= |code|
    ensures code[m.ip] == 33 ==> Step(a, code, m) == Next(m.(stack := m.stack + [code[m.ip + 1..m.ip + 9]], ip := m.ip + 10))
    ensures code[m.ip] == 65 && code[m.ip + 9] < 10 ==>
      Step(a, code, m) == Next(m.(stack := m.stack + [m.regs[code[m.ip + 9]]], ip := m.ip + 10))
    ensures code[m.ip] == 225 && code[m.ip + 9] < 10 ==>
      var address := a.toInt(a.add(code[m.ip + 1..m.ip + 9], m.regs[code[m.ip + 9]]));
      0 <= address < 3000 ==> Step(a, code, m) == Next(m.(stack := m.stack + [m.ram[address]], ip := m.ip + 10))
  {
    hide IsArithmetic;
  }

  lemma PopRegListing(a: Arith, code: seq<Byte>, m: Machine, rest: seq<Elem>, v: Elem)
    requires Sized(m) && 0 <= m.ip && m.ip + 10 <= |code| && m.stack == rest + [v] && code[m.ip] == 70 && code[m.ip + 9] < 10
    ensures Step(a, code, m) == Next(m.(stack := rest, regs := m.regs[code[m.ip + 9] := v], ip := m.ip + 10))
  {
    hide IsArithmetic;
    assert Dropped(m, 1) == rest;
    assert GetArg(a, code, m).1 == RegPlace(code[m.ip + 9]);
  }

  /** pop into RAM at the sum of a number and a register. */
  lemma PopRamListing(a: Arith, code: seq<Byte>, m: Machine, rest: seq<Elem>, v: Elem)
    requires Sized(m) && 0 <= m.ip && m.ip + 10 <= |code| && m.stack == rest + [v] && code[m.ip] == 230 && code[m.ip + 9] < 10
    ensures var address := a.toInt(a.add(code[m.ip + 1..m.ip + 9], m.regs[code[m.ip + 9]]));
      0 <= address < 3000 ==> Step(a, code, m) == Next(m.(stack := rest, ram := m.ram[address := v], ip := m.ip + 10))
  {
    hide IsArithmetic;
    assert Dropped(m, 1) == rest;
    assert GetArg(a, code, m).1 == RamPlace(a.toInt(a.add(code[m.ip + 1..m.ip + 9], m.regs[code[m.ip + 9]])));
  }

  // ----- A whole program -----

  /** The file of a `main` that assigns a number with this text to its only variable. */
  function AssignmentFile(text: string): seq<Line> {
    [Jump(Call, Named("main")), Plain(HltC), Comment, Comment, LabelDef(Named("main")), Pop("rcx "), Push("rcx "),
     Push(text), Comment, Pop("[0+rax]"),
     Pop("rcx"), Comment, Push("rcx"), Plain(RetC), Comment, Comment, Plain(EndC)]
  }

  lemma AssignmentLines(a: Arith, x: string, v: Elem)
    ensures ProgramLines(a, OpT(VAR, VarT(x), NumT(v))) == AssignmentFile(Constant(a, v))
  {
    hide Constant;
    EmitAssignment(a, OpT(VAR, VarT(x), NumT(v)), [], 0);
    assert Emit(a, NumT(v), [x], 0).lines == [Push(Constant(a, v))];
    assert IndexOf([x], x) == 0;
    assert Slot(0) == "[0+rax]";
  }

  /** Where those lines begin. */
  lemma AssignmentPlaces(text: string)
    ensures var lines := AssignmentFile(text);
      && |lines| == 17
      && Pos(lines, 0) == 8 && Pos(lines, 1) == 18 && Pos(lines, 4) == 19 && Pos(lines, 5) == 19 && Pos(lines, 6) == 29
      && Pos(lines, 7) == 39 && Pos(lines, 9) == 49 && Pos(lines, 10) == 59 && Pos(lines, 12) == 69
      && Pos(lines, 13) == 79 && Pos(lines, 16) == 80 && Pos(lines, 17) == 81
  {
    var lines := AssignmentFile(text);
    assert Pos(lines, 1) == 18;
    assert Pos(lines, 2) == 19;
    assert Pos(lines, 3) == 19;
    assert Pos(lines, 4) == 19;
    assert Pos(lines, 5) == 19;
    assert Pos(lines, 6) == 29;
    assert Pos(lines, 7) == 39;
    assert Pos(lines, 8) == 49;
    assert Pos(lines, 9) == 49;
    assert Pos(lines, 10) == 59;
    assert Pos(lines, 11) == 69;
    assert Pos(lines, 12) == 69;
    assert Pos(lines, 13) == 79;
    assert Pos(lines, 14) == 80;
    assert Pos(lines, 15) == 80;
    assert Pos(lines, 16) == 80;
  }

  /** Line `k` of an assembled file, in numbers. */
  lemma Listed(a: Arith, code: seq<Byte>, lines: seq<Line>, k: nat)
    requires Assembled(a, code, lines) && k < |lines|
    ensures var p, line := Pos(lines, k), lines[k];
      && (line.Push? ==> ArgumentAt(code, p, 1, Parse(a, line.arg)))
      && (line.Pop? ==> ArgumentAt(code, p, 6, Parse(a, line.arg)))
      && (line.Plain? ==> p < |code| && code[p] == PlainId(line.c))
      && (line.Jump? && line.kind == Call ==>
            p + 10 <= |code| && code[p] == 17 && code[p + 1..p + 9] == a.ofInt(Target(Table(lines), line.dest)))
  {
    hide CodeAt, Pos, Table, Parse, ArgumentAt;
    LineListing(a, code, Pos(lines, k), lines[k], Table(lines));
  }

  lemma MainTarget(text: string)
    ensures Target(Table(AssignmentFile(text)), Named("main")) == 19
  {
    var lines := AssignmentFile(text);
    AssignmentPlaces(text);
    forall k | 0 <= k < |lines| && k != 4 ensures lines[k] != LabelDef(Named("main")) {}
    hide Pos, AssignmentFile;
    UniqueLabel(lines, 17, 4, Named("main"));
  }

  lemma CallBytes(a: Arith, code: seq<Byte>, text: string)
    requires Assembled(a, code, AssignmentFile(text))
    ensures |code| >= 19 && code[8] == 17 && code[9..17] == a.ofInt(19) && code[18] == 0
  {
    hide Assembled, Pos, Table, Target;
    AssignmentPlaces(text);
    MainTarget(text);
    Listed(a, code, AssignmentFile(text), 0);
    Listed(a, code, AssignmentFile(text), 1);
  }

  lemma RcxBytes(a: Arith, code: seq<Byte>, text: string)
    requires Assembled(a, code, AssignmentFile(text))
    ensures |code| >= 79
    ensures code[19] == 70 && code[28] == 2 && code[29] == 65 && code[38] == 2
    ensures code[59] == 70 && code[68] == 2 && code[69] == 65 && code[78] == 2
  {
    hide Assembled, Pos, Parse;
    AssignmentPlaces(text);
    RcxParsed(a, "rcx ");
    RcxParsed(a, "rcx");
    Listed(a, code, AssignmentFile(text), 5);
    Listed(a, code, AssignmentFile(text), 6);
    Listed(a, code, AssignmentFile(text), 10);
    Listed(a, code, AssignmentFile(text), 12);
  }

  lemma SlotZero(a: Arith)
    requires Sane(a)
    ensures Parse(a, "[0+rax]") == Sum(true, a.ofInt(0), 0)
  {
    hide Sane, Parse;
    SlotParsed(a, 0);
    assert Slot(0) == "[0+rax]";
  }

  lemma SlotBytes(a: Arith, code: seq<Byte>, text: string, w: Elem)
    requires Sane(a) && Assembled(a, code, AssignmentFile(text)) && Parse(a, text) == Imm(false, w)
    ensures |code| >= 59 && code[39] == 33 && code[40..48] == w
    ensures code[49] == 230 && code[50..58] == a.ofInt(0) && code[58] == 0
  {
    hide Assembled, Pos, Parse, Sane;
    SlotZero(a);
    AssignmentPlaces(text);
    Listed(a, code, AssignmentFile(text), 7);
    Listed(a, code, AssignmentFile(text), 9);
  }

  lemma EndBytes(a: Arith, code: seq<Byte>, text: string)
    requires Assembled(a, code, AssignmentFile(text))
    ensures |code| >= 81 && code[79] == 18 && code[80] == 28
  {
    hide Assembled, Pos;
    AssignmentPlaces(text);
    Listed(a, code, AssignmentFile(text), 13);
    Listed(a, code, AssignmentFile(text), 16);
  }

  /** Its bytes: the call, the halt, the body with the number as it was scanned, the return. */
  lemma AssignmentBytes(a: Arith, code: seq<Byte>, x: string, v: Elem, w: Elem)
    requires Sane(a) && Assembled(a, code, ProgramLines(a, OpT(VAR, VarT(x), NumT(v))))
    requires Parse(a, Constant(a, v)) == Imm(false, w)
    ensures |code| >= 81
    ensures code[8] == 17 && code[9..17] == a.ofInt(19) && code[18] == 0
    ensures code[19] == 70 && code[28] == 2 && code[29] == 65 && code[38] == 2
    ensures code[39] == 33 && code[40..48] == w
    ensures code[49] == 230 && code[50..58] == a.ofInt(0) && code[58] == 0
    ensures code[59] == 70 && code[68] == 2 && code[69] == 65 && code[78] == 2
    ensures code[79] == 18 && code[80] == 28
  {
    hide Constant, Parse, Assembled, Sane, ProgramLines, AssignmentFile;
    AssignmentLines(a, x, v);
    var text := Constant(a, v);
    CallBytes(a, code, text);
    RcxBytes(a, code, text);
    SlotBytes(a, code, text, w);
    EndBytes(a, code, text);
  }
}
