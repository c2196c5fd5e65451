/** The main theorem of the language: by structural induction over the tree. */
module LangTheorem {
  import opened LangSyntax
  import opened LangOperands
  import opened LangCompile
  import opened LangAssembler
  import opened LangMachine
  import opened LangCorrect
  import opened LangLabels

  function After(c: Context, m: Machine, k: nat, stack: seq<Elem>): Machine
    requires k <= |c.lines|
  {
    m.(ip := Pos(c.lines, k), stack := stack)
  }

  /** Everything an induction step assumes: the printed tree is at line `i`, the machine is there, the
      slots hold the store. */
  ghost predicate Ready(c: Context, m: Machine, s: Store, e: Emitted, i: nat) {
    && ValidContext(c) && Addresses(c, m) && Represents(c, s, m.ram)
    && HasAt(c.lines, i, e.lines) && m.ip == Pos(c.lines, i) && e.names <= c.names
  }

  /** The part of a printed tree that belongs to one of its children. */
  lemma ReadyPart(c: Context, m: Machine, s: Store, e: Emitted, i: nat, x: seq<Line>, y: seq<Line>, f: Emitted, m': Machine, s': Store)
    requires Ready(c, m, s, e, i) && e.lines == x + y && f.lines <= y && f.names <= e.names
    requires Addresses(c, m') && Represents(c, s', m'.ram) && i + |x| <= |c.lines| && m'.ip == Pos(c.lines, i + |x|)
    ensures Ready(c, m', s', f, i + |x|)
  {
    hide ValidContext, Addresses, Represents, Pos, HasAt;
    PartAt(c.lines, i, x, y, f.lines);
  }

  lemma PartAt(lines: seq<Line>, i: nat, x: seq<Line>, y: seq<Line>, f: seq<Line>)
    requires HasAt(lines, i, x + y) && f <= y
    ensures i + |x| <= |lines| && HasAt(lines, i + |x|, f)
  {
    hide HasAt;
    SplitAt(lines, i, x, y);
    assert y == f + y[|f|..];
    SplitAt(lines, i + |x|, f, y[|f|..]);
  }

  lemma ReadyFirst(c: Context, m: Machine, s: Store, e: Emitted, i: nat, x: seq<Line>, f: Emitted)
    requires Ready(c, m, s, e, i) && e.lines == f.lines + x && f.names <= e.names
    ensures Ready(c, m, s, f, i) && HasAt(c.lines, i, f.lines + x)
  {
    hide ValidContext, Addresses, Represents, Pos, HasAt;
    SplitAt(c.lines, i, f.lines, x);
  }

  lemma SameFrame(c: Context, m: Machine, s: Store, e: Emitted, i: nat)
    requires Ready(c, m, s, e, i)
    ensures i + |e.lines| <= |c.lines| && |m.regs| == REGS && |m.ram| == RAM_SIZE
    ensures ValidContext(c) && Represents(c, s, m.ram)
    ensures forall m': Machine :: m'.regs == m.regs && m'.ram == m.ram ==> Addresses(c, m')
  {
  }

  lemma OneLine(lines: seq<Line>, i: nat, line: Line)
    requires HasAt(lines, i, [line])
    ensures i < |lines| && lines[i] == line
  {
    assert lines[i..i + 1][0] == lines[i];
  }

  /** The last of the lines that are there. */
  lemma LastLine(lines: seq<Line>, i: nat, x: seq<Line>, line: Line)
    requires HasAt(lines, i, x + [line])
    ensures i + |x| < |lines| && lines[i + |x|] == line && HasAt(lines, i, x)
  {
    SplitAt(lines, i, x, [line]);
    OneLine(lines, i + |x|, line);
  }

  /** An expression leaves its value on the stack and nothing else changes. */
  lemma {:induction false} ExprCorrect(c: Context, t: Tree, names: seq<string>, labels: nat, i: nat, s: Store, m: Machine)
    requires IsExpr(t) && Ready(c, m, s, Emit(c.a, t, names, labels), i)
    ensures var e := Emit(c.a, t, names, labels);
      i + |e.lines| <= |c.lines| && |m.regs| == REGS && |m.ram| == RAM_SIZE
      && Reaches(c, m, After(c, m, i + |e.lines|, m.stack + [Worth(c, t, s)]))
    decreases t, 2
  {
    hide Emit, Worth, Ready, Reaches;
    if t.NumT? {
      ConstantCorrect(c, t, names, labels, i, s, m);
    } else if t.VarT? {
      VariableCorrect(c, t, names, labels, i, s, m);
    } else if t.op == SQRT {
      SqrtCorrect(c, t, names, labels, i, s, m);
    } else {
      OperatorCorrect(c, t, names, labels, i, s, m);
    }
  }

  lemma EmitConstant(c: Context, t: Tree, names: seq<string>, labels: nat, s: Store)
    requires t.NumT?
    ensures Emit(c.a, t, names, labels).lines == [Push(Constant(c.a, t.num))] && Worth(c, t, s) == Loaded(c.a, c.rax, t.num)
  {
  }

  /** A variable is read from its slot. */
  lemma EmitVariable(c: Context, t: Tree, names: seq<string>, labels: nat, s: Store) returns (d: nat)
    requires t.VarT?
    ensures var e := Emit(c.a, t, names, labels);
      d < |e.names| && e.names[d] == t.name && e.lines == [Comment] + [Push(Slot(d))]
    ensures Worth(c, t, s) == Lookup(s, t.name)
  {
    d := IndexOf(Insert(names, t.name), t.name);
  }

  lemma EmitSqrt(c: Context, t: Tree, names: seq<string>, labels: nat, s: Store)
    requires IsExpr(t) && t.OpT? && t.op == SQRT
    ensures var e := Emit(c.a, t.left, names, labels);
      Emit(c.a, t, names, labels) == e.(lines := e.lines + [Plain(SqrC)])
    ensures Worth(c, t, s) == c.a.sqrt(Worth(c, t.left, s))
  {
  }

  lemma ConstantCorrect(c: Context, t: Tree, names: seq<string>, labels: nat, i: nat, s: Store, m: Machine)
    requires t.NumT? && Ready(c, m, s, Emit(c.a, t, names, labels), i)
    ensures var e := Emit(c.a, t, names, labels);
      i + |e.lines| <= |c.lines| && |m.regs| == REGS && |m.ram| == RAM_SIZE
      && Reaches(c, m, After(c, m, i + |e.lines|, m.stack + [Worth(c, t, s)]))
  {
    hide ValidContext, Addresses, Represents, Reaches, Emit, Worth, Ready, Pos, HasAt, Constant, Loaded;
    EmitConstant(c, t, names, labels, s);
    SameFrame(c, m, s, Emit(c.a, t, names, labels), i);
    HasWhole(c, m, s, Emit(c.a, t, names, labels), i);
    OneLine(c.lines, i, Push(Constant(c.a, t.num)));
    PushConstant(c, i, t.num, m);
  }

  /** The slot of a name holds its value. */
  lemma SlotOf(c: Context, d: nat, names: seq<string>, s: Store, ram: seq<Elem>)
    requires names <= c.names && d < |names| && Represents(c, s, ram)
    ensures d < |c.names| && c.names[d] == names[d] && 0 <= c.base + d < |ram| && ram[c.base + d] == Lookup(s, names[d])
  {
  }

  /** The two lines that read slot `d`. */
  lemma ReadSlot(c: Context, i: nat, d: nat, m: Machine)
    requires ValidContext(c) && Addresses(c, m) && |m.regs| == REGS && |m.ram| == RAM_SIZE
    requires d < |c.names| && 0 <= c.base + d < |m.ram| && HasAt(c.lines, i, [Comment] + [Push(Slot(d))])
    requires m.ip == Pos(c.lines, i)
    ensures i + 2 <= |c.lines| && Reaches(c, m, After(c, m, i + 2, m.stack + [m.ram[c.base + d]]))
  {
    hide ValidContext, Addresses, Reaches, Pos, HasAt, Slot;
    var push := Push(Slot(d));
    LastLine(c.lines, i, [Comment], push);
    OneLine(c.lines, i, Comment);
    SilentLine(c, i);
    PushSlot(c, i + 1, d, m);
  }

  lemma VariableCorrect(c: Context, t: Tree, names: seq<string>, labels: nat, i: nat, s: Store, m: Machine)
    requires t.VarT? && Ready(c, m, s, Emit(c.a, t, names, labels), i)
    ensures var e := Emit(c.a, t, names, labels);
      i + |e.lines| <= |c.lines| && |m.regs| == REGS && |m.ram| == RAM_SIZE
      && Reaches(c, m, After(c, m, i + |e.lines|, m.stack + [Worth(c, t, s)]))
  {
    hide Emit, Worth, Ready, ValidContext, Addresses, Represents, Reaches, HasAt, Pos, Slot, Lookup;
    var e := Emit(c.a, t, names, labels);
    var d := EmitVariable(c, t, names, labels, s);
    SameFrame(c, m, s, e, i);
    HasWhole(c, m, s, e, i);
    SlotOf(c, d, e.names, s, m.ram);
    ReadSlot(c, i, d, m);
  }

  /** Both operands of an operator or a comparison, one on top of the other. */
  lemma {:induction false} OperandsCorrect(c: Context, t: Tree, names: seq<string>, labels: nat, i: nat, s: Store, m: Machine)
    requires t.OpT? && t.op != VAR && t.op != IF && t.op != SQRT && Printable(t) && IsExpr(First(t)) && IsExpr(Second(t))
    requires Ready(c, m, s, Emit(c.a, t, names, labels), i)
    ensures var e := Emit(c.a, First(t), names, labels); var f := Emit(c.a, Second(t), e.names, e.labels);
      var k := i + |e.lines| + |f.lines|;
      k <= |c.lines| && |m.regs| == REGS && |m.ram| == RAM_SIZE && HasAt(c.lines, k, Tail(t.op, f.labels))
      && Reaches(c, m, After(c, m, k, m.stack + [Worth(c, First(t), s), Worth(c, Second(t), s)]))
    decreases t, 0
  {
    hide Emit, ValidContext, Addresses, Represents, Reaches, Worth, Ready, Pos, HasAt;
    EmitTwo(c.a, t, names, labels);
    var w := Emit(c.a, t, names, labels);
    var e := Emit(c.a, First(t), names, labels);
    var f := Emit(c.a, Second(t), e.names, e.labels);
    var tail := Tail(t.op, f.labels);
    assert w.lines == e.lines + (f.lines + tail) && w.lines == (e.lines + f.lines) + tail;
    SameFrame(c, m, s, w, i);
    HasWhole(c, m, s, w, i);
    ReadyFirst(c, m, s, w, i, f.lines + tail, e);
    ExprCorrect(c, First(t), names, labels, i, s, m);
    var u, v := Worth(c, First(t), s), Worth(c, Second(t), s);
    var m1 := After(c, m, i + |e.lines|, m.stack + [u]);
    ReadyPart(c, m, s, w, i, e.lines, f.lines + tail, f, m1, s);
    ExprCorrect(c, Second(t), e.names, e.labels, i + |e.lines|, s, m1);
    assert (m.stack + [u]) + [v] == m.stack + [u, v];
    ReachesTransitive(c, m, m1, After(c, m, i + |e.lines| + |f.lines|, m.stack + [u, v]));
    SplitAt(c.lines, i, e.lines + f.lines, tail);
  }

  lemma HasWhole(c: Context, m: Machine, s: Store, e: Emitted, i: nat)
    requires Ready(c, m, s, e, i)
    ensures HasAt(c.lines, i, e.lines) && m.ip == Pos(c.lines, i) && e.names <= c.names
  {
  }

  lemma {:induction false} OperatorCorrect(c: Context, t: Tree, names: seq<string>, labels: nat, i: nat, s: Store, m: Machine)
    requires IsExpr(t) && t.OpT? && t.op != SQRT && Ready(c, m, s, Emit(c.a, t, names, labels), i)
    ensures var e := Emit(c.a, t, names, labels);
      i + |e.lines| <= |c.lines| && |m.regs| == REGS && |m.ram| == RAM_SIZE
      && Reaches(c, m, After(c, m, i + |e.lines|, m.stack + [Worth(c, t, s)]))
    decreases t, 1
  {
    hide Emit, ValidContext, Addresses, Represents, Reaches, Worth, Ready, Pos, LangCorrect.Result, HasAt;
    OperandsCorrect(c, t, names, labels, i, s, m);
    EmitTwo(c.a, t, names, labels);
    var u, v := Worth(c, First(t), s), Worth(c, Second(t), s);
    var cmd := if t.op == ADD then AddC else if t.op == SUB then SubC else if t.op == MUL then MulC else DivC;
    SameFrame(c, m, s, Emit(c.a, t, names, labels), i);
    OperatorMeaning(c, t, s, cmd);
    var w := Emit(c.a, t, names, labels);
    var e := Emit(c.a, First(t), names, labels);
    var f := Emit(c.a, Second(t), e.names, e.labels);
    var k := i + |e.lines| + |f.lines|;
    OneLine(c.lines, k, Plain(cmd));
    BinaryLine(c, k, cmd, After(c, m, k, m.stack + [u, v]), m.stack, u, v);
    ReachesTransitive(c, m, After(c, m, k, m.stack + [u, v]), After(c, m, k + 1, m.stack + [Worth(c, t, s)]));
  }

  /** The machine's operator on the operands in printing order is the source's operator. */
  lemma OperatorMeaning(c: Context, t: Tree, s: Store, cmd: Command)
    requires ValidContext(c) && IsExpr(t) && t.OpT? && t.op != SQRT
    requires cmd == if t.op == ADD then AddC else if t.op == SUB then SubC else if t.op == MUL then MulC else DivC
    ensures LangCorrect.Result(c.a, cmd, Worth(c, Second(t), s), Worth(c, First(t), s)) == Worth(c, t, s)
  {
    var u, v := Worth(c, First(t), s), Worth(c, Second(t), s);
    assert c.a.add(u, v) == c.a.add(v, u) && c.a.mul(u, v) == c.a.mul(v, u);
  }

  lemma {:induction false} SqrtCorrect(c: Context, t: Tree, names: seq<string>, labels: nat, i: nat, s: Store, m: Machine)
    requires IsExpr(t) && t.OpT? && t.op == SQRT && Ready(c, m, s, Emit(c.a, t, names, labels), i)
    ensures var e := Emit(c.a, t, names, labels);
      i + |e.lines| <= |c.lines| && |m.regs| == REGS && |m.ram| == RAM_SIZE
      && Reaches(c, m, After(c, m, i + |e.lines|, m.stack + [Worth(c, t, s)]))
    decreases t, 0
  {
    hide Emit, ValidContext, Addresses, Represents, Reaches, Worth, Ready, Pos, HasAt;
    var w := Emit(c.a, t, names, labels);
    var e := Emit(c.a, t.left, names, labels);
    EmitSqrt(c, t, names, labels, s);
    SameFrame(c, m, s, w, i);
    ReadyFirst(c, m, s, w, i, [Plain(SqrC)], e);
    ExprCorrect(c, t.left, names, labels, i, s, m);
    SqrtStep(c, e.lines, i, Worth(c, t.left, s), m);
  }

  lemma SqrtStep(c: Context, x: seq<Line>, i: nat, u: Elem, m: Machine)
    requires ValidContext(c) && Addresses(c, m) && |m.regs| == REGS && |m.ram| == RAM_SIZE
    requires HasAt(c.lines, i, x + [Plain(SqrC)]) && i + |x| <= |c.lines|
    requires Reaches(c, m, After(c, m, i + |x|, m.stack + [u]))
    ensures i + |x| + 1 <= |c.lines| && Reaches(c, m, After(c, m, i + |x| + 1, m.stack + [c.a.sqrt(u)]))
  {
    hide ValidContext, Reaches, Pos, HasAt;
    var k := i + |x|;
    LastLine(c.lines, i, x, Plain(SqrC));
    SqrLine(c, k, After(c, m, k, m.stack + [u]), m.stack, u);
    ReachesTransitive(c, m, After(c, m, k, m.stack + [u]), After(c, m, k + 1, m.stack + [c.a.sqrt(u)]));
  }
}
