/** Whole programs: a parameterless `main` printed, assembled and run from the first command to the last. */
module LangProgram {
  import opened LangSyntax
  import opened LangOperands
  import opened LangCompile
  import opened LangAssembler
  import opened LangMachine
  import opened LangCorrect
  import opened LangLabels
  import opened LangTheorem
  import opened LangStatements
  import opened LangPrinter

  const MAIN: Label := Named("main")

  function Prologue(): seq<Line> { [Jump(Call, MAIN), Plain(HltC), Comment, Comment, LabelDef(MAIN), Pop(RCX_SPACE), Push(RCX_SPACE)] }

  function Epilogue(): seq<Line> { [Pop(RCX), Comment, Push(RCX), Plain(RetC), Comment, Comment, Plain(EndC)] }

  /** The file for a `main` with the given body. */
  function ProgramLines(a: Arith, body: Tree): seq<Line>
    requires body == Null || IsStmt(body)
  {
    Prologue() + Emit(a, body, [], 0).lines + Epilogue()
  }

  /** What comes before the body: the call, and the entry of the function in a namespace of its own. */
  method PrintPrologue(p: Printer)
    requires p.out == [] && p.names == [] && p.namespaceOffset == [0]
    modifies p
    ensures p.out == Prologue() && p.names == [] && p.namespaceOffset == [0, 0] && p.labelCounter == old(p.labelCounter)
  {
    p.Print(Jump(Call, MAIN));
    p.Print(Plain(HltC));
    p.Print(Comment);
    p.namespaceOffset := p.namespaceOffset + [0];
    p.Print(Comment);
    p.Print(LabelDef(MAIN));
    p.Print(Pop(RCX_SPACE));
    p.Print(Push(RCX_SPACE));
  }

  method PrintEpilogue(p: Printer)
    requires |p.namespaceOffset| > 0
    modifies p
    ensures p.out == old(p.out) + Epilogue()
  {
    ghost var o := p.out;
    p.Print(Pop(RCX));
    p.Print(Comment);
    p.Print(Push(RCX));
    p.Print(Plain(RetC));
    p.Print(Comment);
    p.namespaceOffset := p.namespaceOffset[..|p.namespaceOffset| - 1];
    p.Print(Comment);
    p.Print(Plain(EndC));
    assert p.out == o + Epilogue();
  }

  method PrintCmdsInFile(a: Arith, body: Tree) returns (lines: seq<Line>)
    requires body == Null || IsStmt(body)
    ensures lines == ProgramLines(a, body)
  {
    hide Emit, Prologue, Epilogue;
    var p := new Printer(a);
    PrintPrologue(p);
    assert [0, 0] == [0] + [|p.names|];
    p.PrintOperation(body, [0]);
    PrintEpilogue(p);
    lines := p.out;
  }

  predicate Distinct(names: seq<string>) { forall i, j :: 0 <= i < j < |names| ==> names[i] != names[j] }

  /** No variable gets two slots. */
  lemma {:induction false} NamesDistinct(a: Arith, t: Tree, names: seq<string>, labels: nat)
    requires Printable(t) && Distinct(names)
    ensures Distinct(Emit(a, t, names, labels).names)
  {
    hide Emit;
    if !t.OpT? {
      LeafDistinct(a, t, names, labels);
    } else if t.op == VAR {
      var d := EmitVar(a, t, names, labels);
      NamesDistinct(a, t.right, Insert(names, t.left.name), labels);
    } else if t.op == IF {
      EmitIf(a, t, names, labels);
      var p := PiecesOf(a, t, names, labels);
      NamesDistinct(a, t.left, names, labels);
      NamesDistinct(a, t.right.left, p.cond.names, p.cond.labels + 1);
      NamesDistinct(a, t.right.right, p.yes.names, p.yes.labels);
    } else if t.op == SQRT {
      EmitOne(a, t, names, labels);
      NamesDistinct(a, t.left, names, labels);
    } else {
      EmitTwo(a, t, names, labels);
      var e := Emit(a, First(t), names, labels);
      NamesDistinct(a, First(t), names, labels);
      NamesDistinct(a, Second(t), e.names, e.labels);
    }
  }

  lemma LeafDistinct(a: Arith, t: Tree, names: seq<string>, labels: nat)
    requires Printable(t) && !t.OpT? && Distinct(names)
    ensures Distinct(Emit(a, t, names, labels).names)
  {
  }

  // ----- The lines around the body -----

  lemma StepPushReg(a: Arith, code: seq<Byte>, m: Machine)
    requires |m.regs| == REGS && |m.ram| == RAM_SIZE && 0 <= m.ip && OperandAt(code, m.ip, PUSH, Reg(false, 2))
    ensures Step(a, code, m) == Next(m.(stack := m.stack + [m.regs[2]], ip := m.ip + 10))
  {
    hide IsArithmetic;
    assert code[m.ip] == 65 && !BadRegister(code, m.ip) && GetArg(a, code, m).1 == RegPlace(2);
  }

  lemma StepPopReg(a: Arith, code: seq<Byte>, m: Machine, rest: seq<Elem>, v: Elem)
    requires |m.regs| == REGS && |m.ram| == RAM_SIZE && 0 <= m.ip && OperandAt(code, m.ip, POP, Reg(false, 2)) && m.stack == rest + [v]
    ensures Step(a, code, m) == Next(m.(stack := rest, regs := m.regs[2 := v], ip := m.ip + 10))
  {
    hide IsArithmetic;
    assert code[m.ip] == 70 && !BadRegister(code, m.ip) && GetArg(a, code, m).1 == RegPlace(2);
    assert Dropped(m, 1) == rest;
  }

  lemma StepCall(a: Arith, code: seq<Byte>, m: Machine)
    requires |m.regs| == REGS && |m.ram| == RAM_SIZE && 0 <= m.ip && m.ip + 10 <= |code| && code[m.ip] == JumpCode(Call)
    ensures Step(a, code, m) == Next(m.(stack := m.stack + [a.ofInt(m.ip + 9)], ip := LabelPos(a, code, m.ip) + 1))
  {
  }

  lemma StepRet(a: Arith, code: seq<Byte>, m: Machine, rest: seq<Elem>, v: Elem)
    requires |m.regs| == REGS && |m.ram| == RAM_SIZE && 0 <= m.ip < |code| && code[m.ip] == CommandCode(RetC)
    requires m.stack == rest + [v]
    ensures Step(a, code, m) == Next(m.(stack := rest, ip := a.toInt(v) + 1))
  {
    assert Dropped(m, 1) == rest;
  }

  predicate Sized(m: Machine) { |m.regs| == REGS && |m.ram| == RAM_SIZE }

  /** One line whose command leads from `m` to `m'`. */
  lemma OneStep(c: Context, k: nat, m: Machine, m': Machine)
    requires ValidContext(c) && Sized(m) && k < |c.lines| && m.ip == Pos(c.lines, k) && Size(c.lines[k]) > 0
    requires Step(c.a, c.code, m) == Next(m')
    ensures Reaches(c, m, m')
  {
    hide ValidContext, Step, Pos, Reaches;
    LineIn(c, k);
    ReachesStep(c, m, m');
  }

  lemma CallMain(c: Context, m: Machine, j: nat, name: Label)
    requires ValidContext(c) && Sized(m) && 0 < |c.lines| && c.lines[0] == Jump(Call, name) && m.ip == HEADER
    requires OnlyAt(c.lines, j, name)
    ensures Reaches(c, m, m.(ip := Pos(c.lines, j), stack := m.stack + [c.a.ofInt(17)]))
  {
    assert Pos(c.lines, 0) == HEADER;
    hide ValidContext, Step, Pos, Reaches, LabelPos;
    LineIn(c, 0);
    Destination(c, 0, j, name);
    StepCall(c.a, c.code, m);
    OneStep(c, 0, m, m.(ip := Pos(c.lines, j), stack := m.stack + [c.a.ofInt(17)]));
  }

  predicate NamesRcx(text: string) { text == RCX || text == RCX_SPACE }

  lemma RcxParsed(a: Arith, text: string)
    requires NamesRcx(text)
    ensures Parse(a, text) == Reg(false, 2)
  {
    hide Parse;
    RegisterParsed(a, 'c', text == RCX_SPACE);
    assert ['r', 'c', 'x'] + [' '] == RCX_SPACE && ['r', 'c', 'x'] + [] == RCX;
  }

  /** A pop into rcx and a push back. */
  lemma PopRcx(c: Context, k: nat, m: Machine, rest: seq<Elem>, v: Elem)
    requires ValidContext(c) && Sized(m) && k < |c.lines| && c.lines[k].Pop? && NamesRcx(c.lines[k].arg)
    requires m.ip == Pos(c.lines, k) && m.stack == rest + [v]
    ensures Reaches(c, m, m.(ip := Pos(c.lines, k + 1), stack := rest, regs := m.regs[2 := v]))
  {
    hide ValidContext, Step, Pos, Reaches, OperandAt, Parse;
    LineIn(c, k);
    RcxParsed(c.a, c.lines[k].arg);
    StepPopReg(c.a, c.code, m, rest, v);
    OneStep(c, k, m, m.(ip := Pos(c.lines, k + 1), stack := rest, regs := m.regs[2 := v]));
  }

  lemma PushRcx(c: Context, k: nat, m: Machine, v: Elem)
    requires ValidContext(c) && Sized(m) && k < |c.lines| && c.lines[k].Push? && NamesRcx(c.lines[k].arg)
    requires m.ip == Pos(c.lines, k) && m.regs[2] == v
    ensures Reaches(c, m, m.(ip := Pos(c.lines, k + 1), stack := m.stack + [v]))
  {
    hide ValidContext, Step, Pos, Reaches, OperandAt, Parse;
    LineIn(c, k);
    RcxParsed(c.a, c.lines[k].arg);
    StepPushReg(c.a, c.code, m);
    OneStep(c, k, m, m.(ip := Pos(c.lines, k + 1), stack := m.stack + [v]));
  }

  lemma Return(c: Context, k: nat, m: Machine, rest: seq<Elem>)
    requires ValidContext(c) && Sized(m) && k < |c.lines| && c.lines[k] == Plain(RetC)
    requires m.ip == Pos(c.lines, k) && m.stack == rest + [c.a.ofInt(17)]
    ensures Reaches(c, m, m.(ip := 18, stack := rest))
  {
    assert c.a.toInt(c.a.ofInt(17)) == 17;
    hide ValidContext, Step, Pos, Reaches;
    LineIn(c, k);
    StepRet(c.a, c.code, m, rest, c.a.ofInt(17));
    OneStep(c, k, m, m.(ip := 18, stack := rest));
  }

  lemma HaltLine(c: Context, m: Machine)
    requires ValidContext(c) && Sized(m) && 1 < |c.lines| && c.lines[0].Jump? && c.lines[1] == Plain(HltC) && m.ip == 18
    ensures 18 < Pos(c.lines, |c.lines|) && Step(c.a, c.code, m) == Halted(m)
  {
    hide ValidContext, IsArithmetic;
    LineIn(c, 1);
    assert Pos(c.lines, 1) == 18;
  }

  lemma HasReached(c: Context, m: Machine, m': Machine)
    requires Sized(m) && Reaches(c, m, m')
    ensures exists n: nat :: RunIn(c, m, n) == Next(m')
  {
    hide Run;
  }

  lemma Halt(c: Context, m: Machine, m': Machine)
    requires ValidContext(c) && Sized(m) && 1 < |c.lines| && c.lines[0].Jump? && c.lines[1] == Plain(HltC) && m'.ip == 18
    requires Sized(m') && Reaches(c, m, m')
    ensures exists n: nat :: RunIn(c, m, n) == Halted(m')
  {
    hide ValidContext, Step, Pos, Run, Reaches;
    HaltLine(c, m');
    HasReached(c, m, m');
    var n: nat :| RunIn(c, m, n) == Next(m');
    RunAdd(c, m, m', n, 1);
    RunStep(c.a, c.code, Pos(c.lines, |c.lines|), m', 1);
    assert RunIn(c, m, n + 1) == Halted(m');
  }

  // ----- The program as a whole -----

  /** The machine before the first command. */
  function Initial(): Machine { Machine(HEADER, [], seq(REGS, _ => ZERO), seq(RAM_SIZE, _ => ZERO)) }

  /** What a halted machine shows: the variables of `main` in the first RAM cells as running `meant` leaves
      them, nothing else written, and an empty stack. */
  ghost predicate Shows(a: Arith, body: Tree, meant: Tree, m: Machine)
    requires (body == Null || IsStmt(body)) && (meant == Null || IsStmt(meant))
  {
    var names := Emit(a, body, [], 0).names;
    && Sized(m) && m.stack == [] && |names| <= RAM_SIZE
    && (forall i :: 0 <= i < |names| ==> m.ram[i] == Lookup(Exec(a, meant, map[]), names[i]))
    && (forall i :: |names| <= i < RAM_SIZE ==> m.ram[i] == ZERO)
  }

  /** A line of the file comes from one of its three parts. */
  lemma FileLines(lines: seq<Line>, part: seq<Line>, k: nat)
    requires lines == Prologue() + part + Epilogue() && k < |lines|
    ensures lines[k] == if k < 7 then Prologue()[k] else if k < 7 + |part| then part[k - 7] else Epilogue()[k - 7 - |part|]
  {
  }

  lemma FileLabels(lines: seq<Line>, part: seq<Line>, n: nat)
    requires lines == Prologue() + part + Epilogue() && LabelsIn(part, 0, n)
    ensures Reserved(lines, 7, 7 + |part|, 0, n) && OnlyAt(lines, 4, MAIN) && HasAt(lines, 7, part)
  {
    assert lines[7..7 + |part|] == part;
    forall k | 0 <= k < |lines| && !(7 <= k < 7 + |part|) && lines[k].LabelDef?
      ensures !Numbered(lines[k].name, 0, n)
    {
      FileLines(lines, part, k);
    }
    FileLines(lines, part, 4);
    forall k | 0 <= k < |lines| && k != 4 ensures lines[k] != LabelDef(MAIN) {
      FileLines(lines, part, k);
    }
  }

  /** Where the lines of the file are. */
  lemma FileLayout(a: Arith, body: Tree, lines: seq<Line>)
    requires (body == Null || IsStmt(body)) && lines == ProgramLines(a, body)
    ensures var e := Emit(a, body, [], 0); var q := 7 + |e.lines|;
      && |lines| == q + 7 && HasAt(lines, 7, e.lines) && lines[0] == Jump(Call, MAIN) && lines[1] == Plain(HltC)
      && lines[5] == Pop(RCX_SPACE) && lines[6] == Push(RCX_SPACE) && OnlyAt(lines, 4, MAIN)
      && lines[q] == Pop(RCX) && lines[q + 1] == Comment && lines[q + 2] == Push(RCX) && lines[q + 3] == Plain(RetC)
      && Reserved(lines, 7, q, 0, e.labels)
  {
    hide Emit, LabelsIn, Reserved, OnlyAt, HasAt;
    LabelRange(a, body, [], 0);
    var e := Emit(a, body, [], 0);
    var q := 7 + |e.lines|;
    FileLabels(lines, e.lines, e.labels);
    forall k | k in {0, 1, 5, 6, q, q + 1, q + 2, q + 3}
      ensures lines[k] == if k < 7 then Prologue()[k] else Epilogue()[k - q]
    {
      FileLines(lines, e.lines, k);
    }
  }

  /** The context in which the body of `main` runs: its slots start at address 0. */
  lemma MainContext(a: Arith, body: Tree, code: seq<Byte>, lines: seq<Line>)
    requires (body == Null || IsStmt(body)) && lines == ProgramLines(a, body)
    requires Sane(a) && Assembled(a, code, lines) && Pos(lines, |lines|) < INT_LIMIT && |Emit(a, body, [], 0).names| <= RAM_SIZE
    ensures ValidContext(Context(a, code, lines, Emit(a, body, [], 0).names, ZERO, 0))
  {
    hide Emit, Sane, Assembled, Pos;
    NamesDistinct(a, body, [], 0);
  }

  lemma InitialContext(c: Context, regs: seq<Elem>)
    requires ValidContext(c) && c.rax == ZERO && c.base == 0 && |regs| == REGS && regs[0] == ZERO
    ensures forall m: Machine :: m.regs == regs && |m.ram| == RAM_SIZE ==> Addresses(c, m)
    ensures Represents(c, map[], Initial().ram)
  {
    forall i | 0 <= i < |c.names| ensures c.a.toInt(c.a.add(c.a.ofInt(i), ZERO)) == i {
      assert c.a.add(c.a.ofInt(i), ZERO) == c.a.ofInt(i);
    }
  }

  /** From the first command to the first line of the body. */
  lemma ReachBody(c: Context)
    requires ValidContext(c) && |c.lines| > 7 && c.lines[0] == Jump(Call, MAIN) && OnlyAt(c.lines, 4, MAIN)
    requires c.lines[5] == Pop(RCX_SPACE) && c.lines[6] == Push(RCX_SPACE)
    ensures var v := c.a.ofInt(17);
      Reaches(c, Initial(), Initial().(ip := Pos(c.lines, 7), stack := [v], regs := Initial().regs[2 := v]))
  {
    hide ValidContext, Reaches, Pos;
    var v, m0 := c.a.ofInt(17), Initial();
    var m1 := m0.(ip := Pos(c.lines, 4), stack := [v]);
    assert m0.stack + [v] == [v] && [] + [v] == [v];
    CallMain(c, m0, 4, MAIN);
    SilentLine(c, 4);
    var m2 := m0.(ip := Pos(c.lines, 6), stack := [], regs := m0.regs[2 := v]);
    PopRcx(c, 5, m1, [], v);
    ReachesTransitive(c, m0, m1, m2);
    PushRcx(c, 6, m2, v);
    ReachesTransitive(c, m0, m2, m2.(ip := Pos(c.lines, 7), stack := [v]));
  }

  /** From the last line of the body to the halt. */
  lemma ReachHalt(c: Context, q: nat, m0: Machine, m: Machine)
    requires ValidContext(c) && q + 3 < |c.lines| && Sized(m0) && Sized(m) && Reaches(c, m0, m)
    requires c.lines[q] == Pop(RCX) && c.lines[q + 1] == Comment && c.lines[q + 2] == Push(RCX) && c.lines[q + 3] == Plain(RetC)
    requires m.ip == Pos(c.lines, q) && m.stack == [c.a.ofInt(17)]
    ensures Reaches(c, m0, m.(ip := 18, stack := [], regs := m.regs[2 := c.a.ofInt(17)]))
  {
    hide ValidContext, Reaches, Pos;
    var v := c.a.ofInt(17);
    assert [] + [v] == [v];
    var m1 := m.(ip := Pos(c.lines, q + 1), stack := [], regs := m.regs[2 := v]);
    PopRcx(c, q, m, [], v);
    ReachesTransitive(c, m0, m, m1);
    SilentLine(c, q + 1);
    var m2 := m1.(ip := Pos(c.lines, q + 3), stack := [v]);
    PushRcx(c, q + 2, m1, v);
    ReachesTransitive(c, m0, m1, m2);
    Return(c, q + 3, m2, []);
    ReachesTransitive(c, m0, m2, m2.(ip := 18, stack := []));
  }

  lemma StartOfBody(c: Context, m: Machine, e: Emitted)
    requires ValidContext(c) && Addresses(c, m) && Represents(c, map[], m.ram) && e.names == c.names
    requires HasAt(c.lines, 7, e.lines) && m.ip == Pos(c.lines, 7) && Reserved(c.lines, 7, 7 + |e.lines|, 0, e.labels)
    ensures Start(c, m, map[], e, 7, 0)
  {
    hide ValidContext, Addresses, Represents, HasAt, Pos, Reserved;
  }

  lemma EffectIs(c: Context, t: Tree, s: Store)
    requires t == Null || IsStmt(t)
    ensures Effect(c, t, s) == Exec(c.a, AsLoaded(c.a, c.rax, t), s)
  {
  }

  lemma ShowsResult(c: Context, body: Tree, m: Machine)
    requires (body == Null || IsStmt(body)) && ValidContext(c) && c.base == 0 && c.names == Emit(c.a, body, [], 0).names
    requires Represents(c, Effect(c, body, map[]), m.ram) && SameElsewhere(c, Initial().ram, m.ram)
    requires Sized(m) && m.stack == []
    ensures Shows(c.a, body, AsLoaded(c.a, c.rax, body), m)
  {
    hide Emit, Exec, Effect, Lookup, AsLoaded, ValidContext;
    EffectIs(c, body, map[]);
    forall i | 0 <= i < |c.names| ensures m.ram[i] == Lookup(Effect(c, body, map[]), c.names[i]) {
      assert m.ram[c.base + i] == Lookup(Effect(c, body, map[]), c.names[i]);
    }
  }

  /** The assembled file of a `main` halts, and RAM then holds the variables as the source language says of the
      tree with the numbers that are loaded. */
  lemma {:induction false} ProgramRuns(a: Arith, body: Tree, code: seq<Byte>, lines: seq<Line>) returns (n: nat, m: Machine)
    requires (body == Null || IsStmt(body)) && lines == ProgramLines(a, body)
    requires Sane(a) && Assembled(a, code, lines) && Pos(lines, |lines|) < INT_LIMIT && |Emit(a, body, [], 0).names| <= RAM_SIZE
    ensures Run(a, code, Pos(lines, |lines|), Initial(), n) == Halted(m) && Shows(a, body, AsLoaded(a, ZERO, body), m)
  {
    hide Emit, Effect, AsLoaded, Assembled, Sane, ValidContext, Addresses, Represents, SameElsewhere, HasAt, Reserved, Pos, Reaches, Start,
         Achieves, Shows, Run, OnlyAt, Lookup, ProgramLines, Reserved;
    MainContext(a, body, code, lines);
    FileLayout(a, body, lines);
    var e := Emit(a, body, [], 0);
    var c, q, v := Context(a, code, lines, e.names, ZERO, 0), 7 + |e.lines|, a.ofInt(17);
    var regs := Initial().regs[2 := v];
    InitialContext(c, regs);
    ReachBody(c);
    var m1 := Initial().(ip := Pos(lines, 7), stack := [v], regs := regs);
    StartOfBody(c, m1, e);
    var ram' := StmtCorrect(c, body, [], 0, 7, map[], m1);
    BodyResult(c, m1, q, Effect(c, body, map[]), ram');
    var m2 := m1.(ip := Pos(lines, q), ram := ram');
    ReachesTransitive(c, Initial(), m1, m2);
    ReachHalt(c, q, Initial(), m2);
    m := m2.(ip := 18, stack := [], regs := regs[2 := v]);
    Halt(c, Initial(), m);
    n :| RunIn(c, Initial(), n) == Halted(m);
    ShowsResult(c, body, m);
  }

  lemma BodyResult(c: Context, m: Machine, j: nat, s': Store, ram': seq<Elem>)
    requires Achieves(c, m, j, s', ram')
    ensures j <= |c.lines| && Sized(m) && |ram'| == RAM_SIZE && Reaches(c, m, m.(ip := Pos(c.lines, j), ram := ram'))
    ensures Represents(c, s', ram') && SameElsewhere(c, m.ram, ram')
  {
  }

  /** A halted run stays what it is when more commands are allowed. */
  lemma {:induction false} HaltedStays(a: Arith, code: seq<Byte>, amount: int, m: Machine, n: nat, k: nat)
    requires Sized(m) && Run(a, code, amount, m, n).Halted? && n <= k
    ensures Run(a, code, amount, m, k) == Run(a, code, amount, m, n)
    decreases n
  {
    hide Step, Run;
    RunStep(a, code, amount, m, n);
    RunStep(a, code, amount, m, k);
    if n > 0 && m.ip < amount && Step(a, code, m).Next? {
      HaltedStays(a, code, amount, Step(a, code, m).m, n - 1, k - 1);
    }
  }

  /** The whole chain is right for trees whose numbers survive being printed and read: RAM then shows what the
      source language says of the tree itself. They are all the trees whose numbers reach the machine. */
  lemma ProgramCorrect(a: Arith, body: Tree, code: seq<Byte>, lines: seq<Line>) returns (n: nat, m: Machine)
    requires (body == Null || IsStmt(body)) && lines == ProgramLines(a, body)
    requires Sane(a) && Assembled(a, code, lines) && Pos(lines, |lines|) < INT_LIMIT && |Emit(a, body, [], 0).names| <= RAM_SIZE
    ensures Run(a, code, Pos(lines, |lines|), Initial(), n) == Halted(m)
    ensures AllSurvive(a, body) ==> Shows(a, body, body, m)
    ensures Shows(a, body, AsLoaded(a, ZERO, body), m) && (AsLoaded(a, ZERO, body) == body <==> AllSurvive(a, body))
  {
    hide Emit, AsLoaded, Assembled, Sane, Pos, Shows, Run, ProgramLines;
    n, m := ProgramRuns(a, body, code, lines);
    AllLoadedIff(a, body);
  }

  /** A run that fails goes on failing. */
  lemma {:induction false} StuckStays(a: Arith, code: seq<Byte>, amount: int, m: Machine, n: nat, k: nat)
    requires Sized(m) && Run(a, code, amount, m, n) == Stuck && n <= k
    ensures Run(a, code, amount, m, k) == Stuck
    decreases n
  {
    hide Step, Run;
    RunStep(a, code, amount, m, n);
    RunStep(a, code, amount, m, k);
    if n > 0 && m.ip < amount && Step(a, code, m).Next? {
      StuckStays(a, code, amount, Step(a, code, m).m, n - 1, k - 1);
    }
  }

  /** With `enough` commands allowed, or more, the run from the first command halts. */
  ghost predicate HaltsWithin(a: Arith, code: seq<Byte>, amount: int, enough: nat) {
    forall k: nat :: k >= enough ==> Run(a, code, amount, Initial(), k).Halted?
  }

  /** What any bounded run of the assembled program shows. */
  lemma BoundedRun(a: Arith, body: Tree, code: seq<Byte>, lines: seq<Line>, n: nat)
    requires (body == Null || IsStmt(body)) && lines == ProgramLines(a, body)
    requires Sane(a) && Assembled(a, code, lines) && Pos(lines, |lines|) < INT_LIMIT && |Emit(a, body, [], 0).names| <= RAM_SIZE
    ensures exists enough: nat :: HaltsWithin(a, code, Pos(lines, |lines|), enough)
    ensures var run := Run(a, code, Pos(lines, |lines|), Initial(), n);
      && run != Stuck
      && (run.Halted? ==>
            && Shows(a, body, AsLoaded(a, ZERO, body), run.m)
            && (AllSurvive(a, body) ==> Shows(a, body, body, run.m)))
  {
    hide Emit, Assembled, Sane, Pos, Shows, Run, ProgramLines, Step, AsLoaded, Initial, AllSurvive;
    var amount := Pos(lines, |lines|);
    var enough, m := ProgramCorrect(a, body, code, lines);
    InitialSized();
    forall k: nat | k >= enough ensures Run(a, code, amount, Initial(), k) == Halted(m) {
      HaltedStays(a, code, amount, Initial(), enough, k);
    }
    assert HaltsWithin(a, code, amount, enough);
    var run := Run(a, code, amount, Initial(), n);
    if run == Stuck {
      StuckStays(a, code, amount, Initial(), n, n + enough);
    } else if run.Halted? {
      HaltedStays(a, code, amount, Initial(), n, n + enough);
    }
  }

  lemma InitialSized()
    ensures var m := Initial(); Sized(m) && m.ip == 8 && m.stack == [] && |m.regs| == 10 && |m.ram| == 3000
  {
  }

  /** Prints, assembles in two passes and runs at most `n` commands. The run neither fails nor goes on for ever,
      and when it has stopped RAM is right. */
  method CompileAndRun(a: Arith, body: Tree, n: nat) returns (status: Status, proc: Processor, ip: int)
    requires (body == Null || IsStmt(body)) && Sane(a)
    requires |ProgramLines(a, body)| < 0x800_0000 && |Emit(a, body, [], 0).names| <= RAM_SIZE
    ensures var lines := ProgramLines(a, body);
      && proc.Valid() && proc.a == a && Assembled(a, proc.cmds, lines) && proc.cmdsAmount == Pos(lines, |lines|)
      && |proc.cmds| >= HEADER && proc.cmds[..4] == [67, 85, 77, 2]
    ensures exists enough: nat :: HaltsWithin(a, proc.cmds, proc.cmdsAmount, enough)
    ensures Run(a, proc.cmds, proc.cmdsAmount, Initial(), n) ==
            if status == Stop then Halted(proc.At(ip)) else Next(proc.At(ip))
    ensures status == Stop ==> Shows(a, body, AsLoaded(a, ZERO, body), proc.At(ip))
    ensures status == Stop && AllSurvive(a, body) ==> Shows(a, body, body, proc.At(ip))
  {
    hide Emit, Assembled, Sane, Pos, Shows, Run, ProgramLines, Step, AsLoaded;
    var lines := PrintCmdsInFile(a, body);
    FileLayout(a, body, lines);
    var code := RawToBin(a, lines);
    proc := new Processor(a, code);
    assert proc.At(HEADER) == Initial();
    BoundedRun(a, body, code, lines, n);
    status, ip := proc.Execute(n);
  }
}
