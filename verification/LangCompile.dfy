/** The back end: printing a syntax tree as assembly lines. */
module LangCompile {
  import opened LangSyntax
  import opened LangOperands

  /** Position of the first occurrence of `x`, or the length. */
  function IndexOf(names: seq<string>, x: string): (i: nat)
    ensures i <= |names| && (i < |names| <==> x in names) && (i < |names| ==> names[i] == x)
    ensures forall j :: 0 <= j < i ==> names[j] != x
  {
    if names == [] then 0
    else if names[0] == x then 0
    else
      assert names == [names[0]] + names[1..];
      1 + IndexOf(names[1..], x)
  }

  function Insert(names: seq<string>, x: string): seq<string> { if x in names then names else names + [x] }

  /** Lines printed, the namespace and the label counter afterwards. */
  datatype Emitted = Emitted(lines: seq<Line>, names: seq<string>, labels: nat)

  predicate Printable(t: Tree) { t == Null || IsExpr(t) || IsCond(t) || IsStmt(t) }

  /** What follows the operands. Conditions jump away when they fail. */
  function Tail(op: Op, labels: nat): seq<Line> {
    match op
    case ADD => [Plain(AddC)]
    case SUB => [Plain(SubC)]
    case MUL => [Plain(MulC)]
    case DIV => [Plain(DivC)]
    case SQRT => [Plain(SqrC)]
    case IS_EE => [Jump(Jne, IfLabel(labels))]
    case IS_NE => [Jump(Je, IfLabel(labels))]
    case _ => []
  }

  /** `-` and `/` print their right operand first. */
  predicate RightFirst(op: Op) { op == SUB || op == DIV }

  /** The tree as lines. */
  function Emit(a: Arith, t: Tree, names: seq<string>, labels: nat): Emitted
    requires Printable(t)
  {
    match t
    case Null => Emitted([], names, labels)
    case NumT(v) => Emitted([Push(Constant(a, v))], names, labels)
    case VarT(x) =>
      var names' := Insert(names, x);
      Emitted([Comment, Push(Slot(IndexOf(names', x)))], names', labels)
    case OpT(op, l, r) =>
      if op == VAR then
        var e := Emit(a, r, Insert(names, l.name), labels);
        e.(lines := e.lines + [Comment, Pop(Slot(IndexOf(e.names, l.name)))])
      else if op == IF then
        var c := Emit(a, l, names, labels);
        var arms := EmitElse(a, r, c);
        arms.(lines := [Comment] + c.lines + arms.lines)
      else if op == SQRT then
        var e := Emit(a, l, names, labels);
        e.(lines := e.lines + Tail(op, e.labels))
      else
        var e := Emit(a, if RightFirst(op) then r else l, names, labels);
        var f := Emit(a, if RightFirst(op) then l else r, e.names, e.labels);
        Emitted(e.lines + f.lines + Tail(op, f.labels), f.names, f.labels)
  }

  /** The two arms, after a condition printed as `c`. */
  function EmitElse(a: Arith, t: Tree, c: Emitted): Emitted
    requires t.OpT? && t.op == ELSE && (t.left == Null || IsStmt(t.left)) && (t.right == Null || IsStmt(t.right))
  {
    var yes := Emit(a, t.left, c.names, c.labels + 1);
    var no := Emit(a, t.right, yes.names, yes.labels);
    Emitted([Comment] + yes.lines + [Jump(Jmp, ElseLabel(c.labels)), LabelDef(IfLabel(c.labels)), Comment]
            + no.lines + [LabelDef(ElseLabel(c.labels))],
            no.names, no.labels)
  }

  // ----- The equations of the printer -----

  /** The operand printed first, and the other. */
  function First(t: Tree): Tree
    requires t.OpT?
  {
    if RightFirst(t.op) then t.right else t.left
  }

  function Second(t: Tree): Tree
    requires t.OpT?
  {
    if RightFirst(t.op) then t.left else t.right
  }

  lemma EmitOne(a: Arith, t: Tree, names: seq<string>, labels: nat)
    requires Printable(t) && t.OpT? && t.op == SQRT
    ensures var e := Emit(a, t.left, names, labels);
      Emit(a, t, names, labels) == e.(lines := e.lines + [Plain(SqrC)])
  {
  }

  lemma EmitLeaf(a: Arith, t: Tree, names: seq<string>, labels: nat)
    requires Printable(t) && !t.OpT?
    ensures t == Null ==> Emit(a, t, names, labels) == Emitted([], names, labels)
    ensures t.NumT? ==> Emit(a, t, names, labels) == Emitted([Push(Constant(a, t.num))], names, labels)
    ensures t.VarT? ==> var names' := Insert(names, t.name);
      Emit(a, t, names, labels) == Emitted([Comment, Push(Slot(IndexOf(names', t.name)))], names', labels)
  {
  }

  lemma EmitAssignment(a: Arith, t: Tree, names: seq<string>, labels: nat)
    requires IsStmt(t) && t.op == VAR
    ensures var e := Emit(a, t.right, Insert(names, t.left.name), labels);
      Emit(a, t, names, labels) == e.(lines := e.lines + [Comment, Pop(Slot(IndexOf(e.names, t.left.name)))])
  {
  }

  lemma TwoOperands(a: Arith, t: Tree, names: seq<string>, labels: nat)
    requires Printable(t) && t.OpT? && t.op != VAR && t.op != IF && t.op != SQRT
    ensures Printable(First(t)) && Printable(Second(t))
    ensures var e := Emit(a, First(t), names, labels); var f := Emit(a, Second(t), e.names, e.labels);
      Emit(a, t, names, labels) == Emitted(e.lines + f.lines + Tail(t.op, f.labels), f.names, f.labels)
  {
  }

  /** The pieces of a conditional: the condition, the two arms, and the label number they share. */
  datatype Pieces = Pieces(cond: Emitted, yes: Emitted, no: Emitted) {
    function Number(): nat { cond.labels }
    function Middle(): seq<Line> { [Jump(Jmp, ElseLabel(Number())), LabelDef(IfLabel(Number())), Comment] }
    function End(): seq<Line> { [LabelDef(ElseLabel(Number()))] }
    function Lines(): seq<Line> {
      [Comment] + cond.lines + ([Comment] + yes.lines + Middle() + no.lines + End())
    }
    // Where the parts are when the first line is line `i`.
    function AtYes(i: nat): nat { i + 2 + |cond.lines| }
    function AtJump(i: nat): nat { AtYes(i) + |yes.lines| }
    function AtNo(i: nat): nat { AtJump(i) + 3 }
    function AtEnd(i: nat): nat { AtNo(i) + |no.lines| }
  }

  function PiecesOf(a: Arith, t: Tree, names: seq<string>, labels: nat): Pieces
    requires IsStmt(t) && t.op == IF
  {
    var cond := Emit(a, t.left, names, labels);
    var yes := Emit(a, t.right.left, cond.names, cond.labels + 1);
    Pieces(cond, yes, Emit(a, t.right.right, yes.names, yes.labels))
  }

  lemma EmitIf(a: Arith, t: Tree, names: seq<string>, labels: nat)
    requires IsStmt(t) && t.op == IF
    ensures var p := PiecesOf(a, t, names, labels);
      Emit(a, t, names, labels) == Emitted(p.Lines(), p.no.names, p.no.labels)
  {
    hide Emit;
    ConditionThenArms(a, t, names, labels);
  }

  lemma ConditionThenArms(a: Arith, t: Tree, names: seq<string>, labels: nat)
    requires IsStmt(t) && t.op == IF
    ensures var c := Emit(a, t.left, names, labels); var arms := EmitElse(a, t.right, c);
      Emit(a, t, names, labels) == arms.(lines := [Comment] + c.lines + arms.lines)
  {
    hide EmitElse;
  }
}
