/** Compiler correctness: the printed, assembled and interpreted program does what the tree means. */
module LangCorrect {
  import opened LangSyntax
  import opened LangOperands
  import opened LangCompile
  import opened LangAssembler
  import opened LangMachine
  import LangPrinter

  /** A program file and the variables of the function it is looked at from: their names in slot order,
      what rax holds, and the RAM address of slot 0 which that stands for. */
  datatype Context = Context(a: Arith, code: seq<Byte>, lines: seq<Line>, names: seq<string>, rax: Elem, base: int)

  ghost predicate ValidContext(c: Context) {
    && Sane(c.a) && Assembled(c.a, c.code, c.lines) && Pos(c.lines, |c.lines|) < INT_LIMIT
    && 0 <= c.base && c.base + |c.names| <= RAM_SIZE
    && forall i, j :: 0 <= i < j < |c.names| ==> c.names[i] != c.names[j]
  }

  /** rax addresses the slots. */
  ghost predicate Addresses(c: Context, m: Machine) {
    && |m.regs| == REGS && |m.ram| == RAM_SIZE && m.regs[0] == c.rax
    && forall i :: 0 <= i < |c.names| ==> c.a.toInt(c.a.add(c.a.ofInt(i), c.rax)) == c.base + i
  }

  /** The slots hold the store. */
  ghost predicate Represents(c: Context, s: Store, ram: seq<Elem>) {
    && |ram| == RAM_SIZE && 0 <= c.base && c.base + |c.names| <= RAM_SIZE
    && forall i :: 0 <= i < |c.names| ==> ram[c.base + i] == Lookup(s, c.names[i])
  }

  /** RAM outside the slots is untouched. */
  predicate SameElsewhere(c: Context, ram: seq<Elem>, ram': seq<Elem>) {
    |ram'| == |ram| && forall i :: 0 <= i < |ram| && !(c.base <= i < c.base + |c.names|) ==> ram'[i] == ram[i]
  }

  /** Expressions, conditions and statements as the machine sees them: over the numbers that are loaded. */
  function Worth(c: Context, t: Tree, s: Store): Elem
    requires IsExpr(t)
  {
    Eval(c.a, AsLoaded(c.a, c.rax, t), s)
  }

  predicate Taken(c: Context, t: Tree, s: Store)
    requires IsCond(t)
  {
    Holds(c.a, AsLoaded(c.a, c.rax, t), s)
  }

  function Effect(c: Context, t: Tree, s: Store): Store
    requires t == Null || IsStmt(t)
  {
    Exec(c.a, AsLoaded(c.a, c.rax, t), s)
  }

  function RunIn(c: Context, m: Machine, n: nat): Outcome
    requires |m.regs| == REGS && |m.ram| == RAM_SIZE
  {
    Run(c.a, c.code, Pos(c.lines, |c.lines|), m, n)
  }

  /** Some number of commands leads from `m` to `m'`. */
  ghost predicate Reaches(c: Context, m: Machine, m': Machine)
    requires |m.regs| == REGS && |m.ram| == RAM_SIZE
  {
    exists n :: RunIn(c, m, n) == Next(m')
  }

  lemma {:induction false} RunAdd(c: Context, m: Machine, m': Machine, n: nat, k: nat)
    requires |m.regs| == REGS && |m.ram| == RAM_SIZE && RunIn(c, m, n) == Next(m')
    ensures |m'.regs| == REGS && |m'.ram| == RAM_SIZE && RunIn(c, m, n + k) == RunIn(c, m', k)
    decreases n
  {
    hide Step, Run;
    RunStep(c.a, c.code, Pos(c.lines, |c.lines|), m, n);
    if n > 0 {
      RunStep(c.a, c.code, Pos(c.lines, |c.lines|), m, n + k);
      RunAdd(c, Step(c.a, c.code, m).m, m', n - 1, k);
    }
  }

  lemma ReachesTransitive(c: Context, m: Machine, m': Machine, m'': Machine)
    requires |m.regs| == REGS && |m.ram| == RAM_SIZE && |m'.regs| == REGS && |m'.ram| == RAM_SIZE
    requires Reaches(c, m, m') && Reaches(c, m', m'')
    ensures Reaches(c, m, m'')
  {
    var n :| RunIn(c, m, n) == Next(m');
    var k :| RunIn(c, m', k) == Next(m'');
    RunAdd(c, m, m', n, k);
  }

  lemma ReachesSelf(c: Context, m: Machine)
    requires |m.regs| == REGS && |m.ram| == RAM_SIZE
    ensures Reaches(c, m, m)
  {
    assert RunIn(c, m, 0) == Next(m);
  }

  lemma ReachesStep(c: Context, m: Machine, m': Machine)
    requires |m.regs| == REGS && |m.ram| == RAM_SIZE
    requires m.ip < Pos(c.lines, |c.lines|) && Step(c.a, c.code, m) == Next(m')
    ensures Reaches(c, m, m')
  {
    hide Step, Run;
    RunStep(c.a, c.code, Pos(c.lines, |c.lines|), m, 1);
    RunStep(c.a, c.code, Pos(c.lines, |c.lines|), m', 0);
    assert RunIn(c, m, 1) == Next(m');
  }

  // ----- Single lines -----

  /** `seg` is the part of the program that starts at line `i`. */
  predicate HasAt(lines: seq<Line>, i: nat, seg: seq<Line>) { i + |seg| <= |lines| && lines[i..i + |seg|] == seg }

  lemma SplitAt(lines: seq<Line>, i: nat, x: seq<Line>, y: seq<Line>)
    requires HasAt(lines, i, x + y)
    ensures HasAt(lines, i, x) && HasAt(lines, i + |x|, y)
  {
    assert lines[i..i + |x|] == lines[i..i + |x + y|][..|x|] == (x + y)[..|x|];
    assert lines[i + |x|..i + |x| + |y|] == lines[i..i + |x + y|][|x|..] == (x + y)[|x|..];
  }

  lemma LineIn(c: Context, k: nat)
    requires ValidContext(c) && k < |c.lines|
    ensures CodeAt(c.a, c.code, Pos(c.lines, k), c.lines[k], Table(c.lines))
    ensures Pos(c.lines, k + 1) == Pos(c.lines, k) + Size(c.lines[k]) <= Pos(c.lines, |c.lines|) < INT_LIMIT
  {
    PosMonotone(c.lines, k, |c.lines|);
  }

  lemma SilentLine(c: Context, k: nat)
    requires ValidContext(c) && k < |c.lines| && (c.lines[k].Comment? || c.lines[k].LabelDef?)
    ensures Pos(c.lines, k + 1) == Pos(c.lines, k)
  {
  }

  lemma IsSane(c: Context)
    requires ValidContext(c)
    ensures Sane(c.a)
  {
  }

  lemma StepPushImm(a: Arith, code: seq<Byte>, m: Machine, v: Elem)
    requires |m.regs| == REGS && |m.ram| == RAM_SIZE && 0 <= m.ip && OperandAt(code, m.ip, PUSH, Imm(false, v))
    ensures Step(a, code, m) == Next(m.(stack := m.stack + [v], ip := m.ip + 10))
  {
    hide IsArithmetic;
    assert code[m.ip] == 33 && GetArg(a, code, m) == (v, NoPlace);
  }

  lemma StepPushSum(a: Arith, code: seq<Byte>, m: Machine, v: Elem)
    requires |m.regs| == REGS && |m.ram| == RAM_SIZE && 0 <= m.ip && OperandAt(code, m.ip, PUSH, Sum(false, v, 0))
    ensures Step(a, code, m) == Next(m.(stack := m.stack + [a.add(v, m.regs[0])], ip := m.ip + 10))
  {
    hide IsArithmetic;
    assert code[m.ip] == 97 && GetArg(a, code, m) == (a.add(v, m.regs[0]), NoPlace);
  }

  lemma StepConstant(a: Arith, code: seq<Byte>, m: Machine, v: Elem)
    requires |m.regs| == REGS && |m.ram| == RAM_SIZE && 0 <= m.ip && Sane(a)
    requires OperandAt(code, m.ip, PUSH, Parse(a, Constant(a, v)))
    ensures Step(a, code, m) == Next(m.(stack := m.stack + [Loaded(a, m.regs[0], v)], ip := m.ip + 10))
  {
    hide Parse, Constant, Sane, Step, OperandAt;
    ConstantParsed(a, v);
    match Parse(a, Constant(a, v))
    case Imm(_, w) => StepPushImm(a, code, m, w);
    case Sum(_, w, _) => StepPushSum(a, code, m, w);
  }

  lemma PushConstant(c: Context, k: nat, v: Elem, m: Machine)
    requires ValidContext(c) && Addresses(c, m) && k < |c.lines| && c.lines[k] == Push(Constant(c.a, v)) && m.ip == Pos(c.lines, k)
    ensures Reaches(c, m, m.(stack := m.stack + [Loaded(c.a, c.rax, v)], ip := Pos(c.lines, k + 1)))
  {
    hide ValidContext, Step, Table, Pos, Parse, Constant, Loaded, OperandAt;
    IsSane(c);
    LineIn(c, k);
    StepConstant(c.a, c.code, m, v);
    ReachesStep(c, m, m.(stack := m.stack + [Loaded(c.a, c.rax, v)], ip := Pos(c.lines, k + 1)));
  }

  /** The slot of the `d`th name. */
  lemma SlotArgument(c: Context, cmd: Byte, d: nat, m: Machine)
    requires ValidContext(c) && Addresses(c, m) && d < |c.names| && 0 <= m.ip && cmd < 32
    requires OperandAt(c.code, m.ip, cmd, Parse(c.a, Slot(d)))
    ensures m.ip + 10 <= |c.code| && !BadRegister(c.code, m.ip) && c.code[m.ip] % 32 == cmd
    ensures GetArg(c.a, c.code, m).1 == RamPlace(c.base + d) && 0 <= c.base + d < RAM_SIZE
  {
    hide Parse, Slot;
    SlotParsed(c.a, d);
  }

  lemma StepRamPush(a: Arith, code: seq<Byte>, m: Machine, p: nat)
    requires |m.regs| == REGS && |m.ram| == RAM_SIZE && 0 <= m.ip && m.ip + 10 <= |code| && p < RAM_SIZE
    requires !BadRegister(code, m.ip) && code[m.ip] % 32 == PUSH && GetArg(a, code, m).1 == RamPlace(p)
    ensures Step(a, code, m) == Next(m.(stack := m.stack + [m.ram[p]], ip := m.ip + 10))
  {
    hide GetArg, BadRegister, IsArithmetic;
  }

  lemma StepRamPop(a: Arith, code: seq<Byte>, m: Machine, p: nat, rest: seq<Elem>, v: Elem)
    requires |m.regs| == REGS && |m.ram| == RAM_SIZE && 0 <= m.ip && m.ip + 10 <= |code| && p < RAM_SIZE
    requires !BadRegister(code, m.ip) && code[m.ip] % 32 == POP && GetArg(a, code, m).1 == RamPlace(p)
    requires m.stack == rest + [v]
    ensures Step(a, code, m) == Next(m.(stack := rest, ip := m.ip + 10, ram := m.ram[p := v]))
  {
    hide GetArg, BadRegister, IsArithmetic;
    assert Dropped(m, 1) == rest;
  }

  lemma PushSlot(c: Context, k: nat, d: nat, m: Machine)
    requires ValidContext(c) && Addresses(c, m) && k < |c.lines| && c.lines[k] == Push(Slot(d)) && d < |c.names|
    requires m.ip == Pos(c.lines, k)
    ensures 0 <= c.base + d < RAM_SIZE
    ensures Reaches(c, m, m.(stack := m.stack + [m.ram[c.base + d]], ip := Pos(c.lines, k + 1)))
  {
    hide ValidContext, Step, Run, Table, Pos, GetArg, BadRegister, Slot, Parse, OperandAt, Reaches;
    LineIn(c, k);
    SlotArgument(c, PUSH, d, m);
    StepRamPush(c.a, c.code, m, c.base + d);
    ReachesStep(c, m, m.(stack := m.stack + [m.ram[c.base + d]], ip := Pos(c.lines, k + 1)));
  }

  lemma PopSlot(c: Context, k: nat, d: nat, m: Machine, v: Elem, rest: seq<Elem>)
    requires ValidContext(c) && Addresses(c, m) && k < |c.lines| && c.lines[k] == Pop(Slot(d)) && d < |c.names|
    requires m.ip == Pos(c.lines, k) && m.stack == rest + [v]
    ensures 0 <= c.base + d < RAM_SIZE
    ensures Reaches(c, m, m.(stack := rest, ip := Pos(c.lines, k + 1), ram := m.ram[c.base + d := v]))
  {
    hide ValidContext, Step, Run, Table, Pos, GetArg, BadRegister, Slot, Parse, OperandAt, Reaches;
    LineIn(c, k);
    SlotArgument(c, POP, d, m);
    StepRamPop(c.a, c.code, m, c.base + d, rest, v);
    ReachesStep(c, m, m.(stack := rest, ip := Pos(c.lines, k + 1), ram := m.ram[c.base + d := v]));
  }

  /** What a two-operand command computes from the top and the second element. */
  function Result(a: Arith, cmd: Command, top: Elem, under: Elem): Elem
    requires cmd.MulC? || cmd.AddC? || cmd.SubC? || cmd.DivC?
  {
    match cmd case MulC => a.mul(top, under) case AddC => a.add(top, under) case SubC => a.sub(top, under)
    case DivC => a.div(top, under)
  }

  lemma StepBinary(a: Arith, code: seq<Byte>, m: Machine, cmd: Command, rest: seq<Elem>, under: Elem, top: Elem)
    requires |m.regs| == REGS && |m.ram| == RAM_SIZE && 0 <= m.ip < |code| && code[m.ip] == CommandCode(cmd)
    requires (cmd.MulC? || cmd.AddC? || cmd.SubC? || cmd.DivC?) && m.stack == rest + [under, top]
    ensures Step(a, code, m) == Next(m.(stack := rest + [Result(a, cmd, top, under)], ip := m.ip + 1))
  {
    assert Dropped(m, 2) == rest;
  }

  lemma BinaryLine(c: Context, k: nat, cmd: Command, m: Machine, rest: seq<Elem>, under: Elem, top: Elem)
    requires ValidContext(c) && Addresses(c, m) && k < |c.lines| && c.lines[k] == Plain(cmd)
    requires cmd.MulC? || cmd.AddC? || cmd.SubC? || cmd.DivC?
    requires m.ip == Pos(c.lines, k) && m.stack == rest + [under, top]
    ensures Reaches(c, m, m.(stack := rest + [Result(c.a, cmd, top, under)], ip := Pos(c.lines, k + 1)))
  {
    hide ValidContext, Step, Table, Pos, Result, CommandCode;
    LineIn(c, k);
    StepBinary(c.a, c.code, m, cmd, rest, under, top);
    ReachesStep(c, m, m.(stack := rest + [Result(c.a, cmd, top, under)], ip := Pos(c.lines, k + 1)));
  }

  lemma StepSqr(a: Arith, code: seq<Byte>, m: Machine, rest: seq<Elem>, top: Elem)
    requires |m.regs| == REGS && |m.ram| == RAM_SIZE && 0 <= m.ip < |code| && code[m.ip] == CommandCode(SqrC)
    requires m.stack == rest + [top]
    ensures Step(a, code, m) == Next(m.(stack := rest + [a.sqrt(top)], ip := m.ip + 1))
  {
    assert Dropped(m, 1) == rest;
  }

  lemma SqrLine(c: Context, k: nat, m: Machine, rest: seq<Elem>, top: Elem)
    requires ValidContext(c) && Addresses(c, m) && k < |c.lines| && c.lines[k] == Plain(SqrC)
    requires m.ip == Pos(c.lines, k) && m.stack == rest + [top]
    ensures Reaches(c, m, m.(stack := rest + [c.a.sqrt(top)], ip := Pos(c.lines, k + 1)))
  {
    hide ValidContext, Step, Table, Pos, CommandCode;
    LineIn(c, k);
    StepSqr(c.a, c.code, m, rest, top);
    ReachesStep(c, m, m.(stack := rest + [c.a.sqrt(top)], ip := Pos(c.lines, k + 1)));
  }

  /** Where a jump to a label defined once, at line `j`, leads. */
  lemma Destination(c: Context, k: nat, j: nat, name: Label)
    requires ValidContext(c) && k < |c.lines| && c.lines[k].Jump? && c.lines[k].dest == name
    requires j < |c.lines| && c.lines[j] == LabelDef(name)
    requires forall i :: 0 <= i < |c.lines| && i != j ==> c.lines[i] != LabelDef(name)
    ensures Pos(c.lines, k) + 10 <= |c.code| && LabelPos(c.a, c.code, Pos(c.lines, k)) + 1 == Pos(c.lines, j)
  {
    hide ValidContext, Table, Pos, Find, Target;
    LineIn(c, k);
    LineIn(c, j);
    TargetIs(c.lines, j, name);
    ExactInt(c, Pos(c.lines, j));
  }

  lemma TargetIs(lines: seq<Line>, j: nat, name: Label)
    requires j < |lines| && lines[j] == LabelDef(name)
    requires forall i :: 0 <= i < |lines| && i != j ==> lines[i] != LabelDef(name)
    ensures Target(Table(lines), name) == Pos(lines, j)
  {
    hide Pos;
    UniqueLabel(lines, |lines|, j, name);
  }

  lemma ExactInt(c: Context, i: int)
    requires ValidContext(c) && 0 < i < INT_LIMIT
    ensures c.a.toInt(c.a.sub(c.a.ofInt(i), c.a.ofInt(1))) == i - 1
  {
  }

  lemma StepJump(a: Arith, code: seq<Byte>, m: Machine)
    requires |m.regs| == REGS && |m.ram| == RAM_SIZE && 0 <= m.ip && m.ip + 10 <= |code| && code[m.ip] == JumpCode(Jmp)
    ensures Step(a, code, m) == Next(m.(ip := LabelPos(a, code, m.ip) + 1))
  {
  }

  lemma JumpLine(c: Context, k: nat, j: nat, name: Label, m: Machine)
    requires ValidContext(c) && Addresses(c, m) && k < |c.lines| && c.lines[k] == Jump(Jmp, name) && m.ip == Pos(c.lines, k)
    requires j < |c.lines| && c.lines[j] == LabelDef(name)
    requires forall i :: 0 <= i < |c.lines| && i != j ==> c.lines[i] != LabelDef(name)
    ensures Reaches(c, m, m.(ip := Pos(c.lines, j)))
  {
    hide ValidContext, Step, Table, Pos, LabelPos, JumpCode;
    LineIn(c, k);
    Destination(c, k, j, name);
    StepJump(c.a, c.code, m);
    ReachesStep(c, m, m.(ip := Pos(c.lines, j)));
  }

  lemma StepBranch(a: Arith, code: seq<Byte>, m: Machine, kind: JumpKind, rest: seq<Elem>, under: Elem, top: Elem)
    requires |m.regs| == REGS && |m.ram| == RAM_SIZE && 0 <= m.ip && m.ip + 10 <= |code| && code[m.ip] == JumpCode(kind)
    requires (kind == Je || kind == Jne) && m.stack == rest + [under, top]
    ensures Step(a, code, m) == Next(m.(stack := rest,
      ip := if a.eq(top, under) == (kind == Je) then LabelPos(a, code, m.ip) + 1 else m.ip + 10))
  {
    hide GetArg, BadRegister, StepPush, StepPop, LabelPos;
    assert Dropped(m, 2) == rest;
  }

  lemma BranchLine(c: Context, k: nat, kind: JumpKind, j: nat, name: Label, m: Machine, rest: seq<Elem>, under: Elem, top: Elem)
    requires ValidContext(c) && Addresses(c, m) && k < |c.lines| && c.lines[k] == Jump(kind, name) && m.ip == Pos(c.lines, k)
    requires (kind == Je || kind == Jne) && m.stack == rest + [under, top]
    requires j < |c.lines| && c.lines[j] == LabelDef(name)
    requires forall i :: 0 <= i < |c.lines| && i != j ==> c.lines[i] != LabelDef(name)
    ensures Reaches(c, m, m.(stack := rest,
      ip := if c.a.eq(top, under) == (kind == Je) then Pos(c.lines, j) else Pos(c.lines, k + 1)))
  {
    hide ValidContext, Step, Table, Pos, LabelPos, JumpCode;
    LineIn(c, k);
    Destination(c, k, j, name);
    StepBranch(c.a, c.code, m, kind, rest, under, top);
    ReachesStep(c, m, m.(stack := rest,
      ip := if c.a.eq(top, under) == (kind == Je) then Pos(c.lines, j) else Pos(c.lines, k + 1)));
  }
}
