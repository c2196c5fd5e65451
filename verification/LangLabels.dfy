/** Which labels a printed tree defines: every one once, with a number no other tree uses. */
module LangLabels {
  import opened LangSyntax
  import opened LangOperands
  import opened LangCompile
  import opened LangCorrect
  import opened LangPrinter

  predicate Numbered(name: Label, lo: nat, hi: nat) { !name.Named? && lo <= name.n < hi }

  /** All labels defined in `lines` have a number from `lo` up to `hi`. */
  predicate LabelsIn(lines: seq<Line>, lo: nat, hi: nat) {
    forall k :: 0 <= k < |lines| && lines[k].LabelDef? ==> Numbered(lines[k].name, lo, hi)
  }

  /** None of them has. */
  predicate Avoids(lines: seq<Line>, lo: nat, hi: nat) {
    forall k :: 0 <= k < |lines| && lines[k].LabelDef? ==> !Numbered(lines[k].name, lo, hi)
  }

  /** Labels numbered from `lo` up to `hi` are defined in lines `i` up to `j` only. */
  predicate Reserved(lines: seq<Line>, i: nat, j: nat, lo: nat, hi: nat) {
    forall k :: 0 <= k < |lines| && !(i <= k < j) && lines[k].LabelDef? ==> !Numbered(lines[k].name, lo, hi)
  }

  lemma LabelsInConcat(x: seq<Line>, y: seq<Line>, lo: nat, mid: nat, hi: nat)
    requires lo <= mid <= hi && LabelsIn(x, lo, mid) && LabelsIn(y, mid, hi)
    ensures LabelsIn(x + y, lo, hi)
  {
  }

  /** Line `j`, and no other, defines `name`. */
  predicate OnlyAt(lines: seq<Line>, j: nat, name: Label) {
    j < |lines| && lines[j] == LabelDef(name) && forall k :: 0 <= k < |lines| && k != j ==> lines[k] != LabelDef(name)
  }

  /** The single lines of a conditional are in place. */
  predicate Laid(lines: seq<Line>, i: nat, p: Pieces) {
    && p.AtEnd(i) < |lines| && lines[i] == Comment && lines[p.AtYes(i) - 1] == Comment && lines[p.AtNo(i) - 1] == Comment
    && lines[p.AtJump(i)] == Jump(Jmp, ElseLabel(p.Number()))
    && OnlyAt(lines, p.AtJump(i) + 1, IfLabel(p.Number())) && OnlyAt(lines, p.AtEnd(i), ElseLabel(p.Number()))
  }

  /** The number of a conditional is its own; the arms only use later ones. */
  lemma PiecesLabels(p: Pieces, labels: nat)
    requires p.cond.labels == labels < p.yes.labels <= p.no.labels && LabelsIn(p.cond.lines, labels, labels)
    requires LabelsIn(p.yes.lines, labels + 1, p.yes.labels) && LabelsIn(p.no.lines, p.yes.labels, p.no.labels)
    ensures LabelsIn(p.Lines(), labels, p.no.labels)
  {
    var arms := [Comment] + p.yes.lines + p.Middle() + p.no.lines + p.End();
    assert LabelsIn(p.Middle(), labels, p.no.labels) && LabelsIn(p.End(), labels, p.no.labels);
    assert LabelsIn([Comment] + p.yes.lines, labels, p.no.labels);
    assert LabelsIn([Comment] + p.yes.lines + p.Middle(), labels, p.no.labels);
    assert LabelsIn([Comment] + p.yes.lines + p.Middle() + p.no.lines, labels, p.no.labels);
    assert LabelsIn(arms, labels, p.no.labels);
    assert LabelsIn([Comment] + p.cond.lines, labels, labels);
    LabelsInConcat([Comment] + p.cond.lines, arms, labels, labels, p.no.labels);
  }

  /** Printing defines labels numbered from the counter before to the counter after; expressions and
      conditions define none. */
  lemma {:induction false} LabelRange(a: Arith, t: Tree, names: seq<string>, labels: nat)
    requires Printable(t)
    ensures var e := Emit(a, t, names, labels);
      && labels <= e.labels && LabelsIn(e.lines, labels, e.labels)
      && (IsExpr(t) || IsCond(t) ==> e.labels == labels)
    decreases t, 1
  {
    hide Emit;
    if !t.OpT? {
      LeafLabels(a, t, names, labels);
    } else if t.op == VAR {
      VarLabels(a, t, names, labels);
    } else if t.op == IF {
      IfLabels(a, t, names, labels);
    } else if t.op == SQRT {
      EmitOne(a, t, names, labels);
      LabelRange(a, t.left, names, labels);
    } else {
      TwoLabels(a, t, names, labels);
    }
  }

  lemma LeafLabels(a: Arith, t: Tree, names: seq<string>, labels: nat)
    requires Printable(t) && !t.OpT?
    ensures var e := Emit(a, t, names, labels); labels == e.labels && LabelsIn(e.lines, labels, labels)
  {
  }

  /** An assignment evaluates, then stores. */
  lemma EmitVar(a: Arith, t: Tree, names: seq<string>, labels: nat) returns (d: nat)
    requires IsStmt(t) && t.op == VAR
    ensures var e := Emit(a, t.right, Insert(names, t.left.name), labels);
      && Emit(a, t, names, labels) == e.(lines := e.lines + ([Comment] + [Pop(Slot(d))]))
      && d < |e.names| && e.names[d] == t.left.name
  {
    var e := Emit(a, t.right, Insert(names, t.left.name), labels);
    NamesGrow(a, t.right, Insert(names, t.left.name), labels);
    d := IndexOf(e.names, t.left.name);
    assert [Comment, Pop(Slot(d))] == [Comment] + [Pop(Slot(d))];
    assert t.left.name in Insert(names, t.left.name);
    Prefix(Insert(names, t.left.name), e.names, t.left.name);
    assert Emit(a, t, names, labels) == e.(lines := e.lines + [Comment, Pop(Slot(d))]);
  }

  lemma {:induction false} VarLabels(a: Arith, t: Tree, names: seq<string>, labels: nat)
    requires IsStmt(t) && t.op == VAR
    ensures var e := Emit(a, t, names, labels); labels <= e.labels && LabelsIn(e.lines, labels, e.labels)
    decreases t, 0
  {
    hide Emit;
    var d := EmitVar(a, t, names, labels);
    LabelRange(a, t.right, Insert(names, t.left.name), labels);
  }

  lemma {:induction false} TwoLabels(a: Arith, t: Tree, names: seq<string>, labels: nat)
    requires Printable(t) && t.OpT? && t.op != VAR && t.op != IF && t.op != SQRT
    ensures var e := Emit(a, t, names, labels);
      && labels <= e.labels && LabelsIn(e.lines, labels, e.labels)
      && (IsExpr(t) || IsCond(t) ==> e.labels == labels)
    decreases t, 0
  {
    hide Emit, LabelsIn;
    EmitTwo(a, t, names, labels);
    var e := Emit(a, First(t), names, labels);
    var f := Emit(a, Second(t), e.names, e.labels);
    LabelRange(a, First(t), names, labels);
    LabelRange(a, Second(t), e.names, e.labels);
    LabelsInConcat(e.lines, f.lines, labels, e.labels, f.labels);
    TailLabels(t.op, f.labels);
    LabelsInConcat(e.lines + f.lines, Tail(t.op, f.labels), labels, f.labels, f.labels);
  }

  lemma TailLabels(op: Op, labels: nat)
    ensures LabelsIn(Tail(op, labels), labels, labels)
  {
  }

  lemma {:induction false} IfLabels(a: Arith, t: Tree, names: seq<string>, labels: nat)
    requires IsStmt(t) && t.op == IF
    ensures var p := PiecesOf(a, t, names, labels); var e := Emit(a, t, names, labels);
      && p.cond.labels == labels < p.yes.labels <= p.no.labels && LabelsIn(p.cond.lines, labels, labels)
      && LabelsIn(p.yes.lines, labels + 1, p.yes.labels) && LabelsIn(p.no.lines, p.yes.labels, p.no.labels)
      && labels <= e.labels && LabelsIn(e.lines, labels, e.labels)
    decreases t, 0
  {
    hide Emit, LabelsIn;
    EmitIf(a, t, names, labels);
    var p := PiecesOf(a, t, names, labels);
    LabelRange(a, t.left, names, labels);
    LabelRange(a, t.right.left, p.cond.names, p.cond.labels + 1);
    LabelRange(a, t.right.right, p.yes.names, p.yes.labels);
    PiecesLabels(p, labels);
  }

  /** A two-operand node: the lines of its operands, then the operator's own. */
  lemma EmitTwo(a: Arith, t: Tree, names: seq<string>, labels: nat)
    requires Printable(t) && t.OpT? && t.op != VAR && t.op != IF && t.op != SQRT
    ensures Printable(First(t)) && Printable(Second(t))
    ensures var e := Emit(a, First(t), names, labels); var f := Emit(a, Second(t), e.names, e.labels);
      Emit(a, t, names, labels) == Emitted(e.lines + f.lines + Tail(t.op, f.labels), f.names, f.labels)
      && e.names <= f.names
  {
    hide Emit;
    TwoOperands(a, t, names, labels);
    var e := Emit(a, First(t), names, labels);
    NamesGrow(a, Second(t), e.names, e.labels);
  }

  // ----- Where a label is defined -----

  /** Inside a reserved stretch, a part keeps the numbers that its neighbours avoid. */
  lemma ReservedPart(lines: seq<Line>, i: nat, x: seq<Line>, f: seq<Line>, y: seq<Line>, lo: nat, hi: nat, lo': nat, hi': nat)
    requires HasAt(lines, i, x + f + y) && Reserved(lines, i, i + |x + f + y|, lo, hi) && lo <= lo' && hi' <= hi
    requires Avoids(x, lo', hi') && Avoids(y, lo', hi')
    ensures Reserved(lines, i + |x|, i + |x| + |f|, lo', hi')
  {
    var seg := x + f + y;
    forall k | 0 <= k < |lines| && !(i + |x| <= k < i + |x| + |f|) && lines[k].LabelDef?
      ensures !Numbered(lines[k].name, lo', hi')
    {
      if i <= k < i + |seg| {
        assert lines[k] == lines[i..i + |seg|][k - i] == seg[k - i];
      }
    }
  }

  /** A label that its neighbours in a reserved stretch do not define is defined once. */
  lemma DefinedOnce(lines: seq<Line>, i: nat, x: seq<Line>, name: Label, y: seq<Line>, lo: nat, hi: nat)
    requires HasAt(lines, i, x + [LabelDef(name)] + y) && Reserved(lines, i, i + |x| + 1 + |y|, lo, hi)
    requires Numbered(name, lo, hi) && LabelDef(name) !in x && LabelDef(name) !in y
    ensures OnlyAt(lines, i + |x|, name)
  {
    var seg := x + [LabelDef(name)] + y;
    assert forall k :: i <= k < i + |seg| ==> lines[k] == lines[i..i + |seg|][k - i] == seg[k - i];
  }

  lemma Undefined(x: seq<Line>, lo: nat, hi: nat, name: Label)
    requires LabelsIn(x, lo, hi) && !Numbered(name, lo, hi)
    ensures LabelDef(name) !in x
  {
  }

  /** What comes before and after the two arms' labels. */
  lemma PiecesUndefined(p: Pieces, labels: nat)
    requires p.cond.labels == labels < p.yes.labels <= p.no.labels && LabelsIn(p.cond.lines, labels, labels)
    requires LabelsIn(p.yes.lines, labels + 1, p.yes.labels) && LabelsIn(p.no.lines, p.yes.labels, p.no.labels)
    ensures var one, two := LabelDef(IfLabel(labels)), LabelDef(ElseLabel(labels));
      && one !in p.cond.lines && one !in p.yes.lines && one !in p.no.lines
      && two !in p.cond.lines && two !in p.yes.lines && two !in p.no.lines
  {
    hide LabelsIn;
    Undefined(p.cond.lines, labels, labels, IfLabel(labels));
    Undefined(p.yes.lines, labels + 1, p.yes.labels, IfLabel(labels));
    Undefined(p.no.lines, p.yes.labels, p.no.labels, IfLabel(labels));
    Undefined(p.cond.lines, labels, labels, ElseLabel(labels));
    Undefined(p.yes.lines, labels + 1, p.yes.labels, ElseLabel(labels));
    Undefined(p.no.lines, p.yes.labels, p.no.labels, ElseLabel(labels));
  }

  lemma LineAt(lines: seq<Line>, i: nat, x: seq<Line>, line: Line, y: seq<Line>)
    requires HasAt(lines, i, x + [line] + y)
    ensures i + |x| < |lines| && lines[i + |x|] == line
  {
    var seg := x + [line] + y;
    assert lines[i + |x|] == lines[i..i + |seg|][|x|] == seg[|x|];
  }

  /** A conditional in a reserved stretch is laid out as its printing says. */
  lemma Layout(lines: seq<Line>, i: nat, p: Pieces, labels: nat)
    requires HasAt(lines, i, p.Lines()) && Reserved(lines, i, i + |p.Lines()|, labels, p.no.labels)
    requires p.cond.labels == labels < p.yes.labels <= p.no.labels && LabelsIn(p.cond.lines, labels, labels)
    requires LabelsIn(p.yes.lines, labels + 1, p.yes.labels) && LabelsIn(p.no.lines, p.yes.labels, p.no.labels)
    ensures Laid(lines, i, p) && |p.Lines()| == p.AtEnd(0) + 1
  {
    hide LabelsIn, Reserved, HasAt, OnlyAt, Laid;
    PiecesUndefined(p, labels);
    FrontLayout(lines, i, p);
    ArmLabels(lines, i, p, labels);
    LaidOut(lines, i, p);
  }

  lemma LaidOut(lines: seq<Line>, i: nat, p: Pieces)
    requires p.AtEnd(i) < |lines| && lines[i] == Comment && lines[p.AtYes(i) - 1] == Comment && lines[p.AtNo(i) - 1] == Comment
    requires lines[p.AtJump(i)] == Jump(Jmp, ElseLabel(p.Number()))
    requires OnlyAt(lines, p.AtJump(i) + 1, IfLabel(p.Number())) && OnlyAt(lines, p.AtEnd(i), ElseLabel(p.Number()))
    ensures Laid(lines, i, p) && |p.Lines()| == p.AtEnd(0) + 1
  {
    hide OnlyAt;
  }

  /** The comments and the jump. */
  lemma FrontLayout(lines: seq<Line>, i: nat, p: Pieces)
    requires HasAt(lines, i, p.Lines())
    ensures p.AtNo(i) <= |lines| && lines[i] == Comment && lines[p.AtYes(i) - 1] == Comment && lines[p.AtNo(i) - 1] == Comment
    ensures lines[p.AtJump(i)] == Jump(Jmp, ElseLabel(p.Number()))
  {
    hide HasAt;
    var c, yes, no, n := p.cond.lines, p.yes.lines, p.no.lines, p.Number();
    var w, end := p.Lines(), LabelDef(ElseLabel(n));
    var x := [Comment] + c + [Comment] + yes;
    assert w == [] + [Comment] + w[1..];
    LineAt(lines, i, [], Comment, w[1..]);
    var y := yes + p.Middle() + no + [end];
    assert w == ([Comment] + c) + [Comment] + y;
    LineAt(lines, i, [Comment] + c, Comment, y);
    y := [LabelDef(IfLabel(n)), Comment] + no + [end];
    assert w == x + [Jump(Jmp, ElseLabel(n))] + y;
    LineAt(lines, i, x, Jump(Jmp, ElseLabel(n)), y);
    x := x + [Jump(Jmp, ElseLabel(n)), LabelDef(IfLabel(n))];
    assert w == x + [Comment] + (no + [end]);
    LineAt(lines, i, x, Comment, no + [end]);
  }

  /** The two labels. */
  lemma ArmLabels(lines: seq<Line>, i: nat, p: Pieces, labels: nat)
    requires HasAt(lines, i, p.Lines()) && Reserved(lines, i, i + |p.Lines()|, labels, p.no.labels)
    requires p.Number() == labels < p.no.labels
    requires var one, two := LabelDef(IfLabel(labels)), LabelDef(ElseLabel(labels));
      && one !in p.cond.lines && one !in p.yes.lines && one !in p.no.lines
      && two !in p.cond.lines && two !in p.yes.lines && two !in p.no.lines
    ensures OnlyAt(lines, p.AtJump(i) + 1, IfLabel(labels)) && OnlyAt(lines, p.AtEnd(i), ElseLabel(labels))
    ensures p.AtEnd(i) < |lines|
  {
    hide Reserved, HasAt;
    var c, yes, no, n := p.cond.lines, p.yes.lines, p.no.lines, labels;
    var w, end := p.Lines(), LabelDef(ElseLabel(n));
    var x := [Comment] + c + [Comment] + yes + [Jump(Jmp, ElseLabel(n))];
    var y := [Comment] + no + [end];
    assert w == x + [LabelDef(IfLabel(n))] + y;
    DefinedOnce(lines, i, x, IfLabel(n), y, labels, p.no.labels);
    x := x + [LabelDef(IfLabel(n)), Comment] + no;
    assert w == x + [end] + [];
    DefinedOnce(lines, i, x, ElseLabel(n), [], labels, p.no.labels);
  }

  /** The neighbours of each arm leave its label numbers alone. */
  lemma ArmsAvoid(p: Pieces, labels: nat)
    requires p.cond.labels == labels < p.yes.labels <= p.no.labels && LabelsIn(p.cond.lines, labels, labels)
    requires LabelsIn(p.yes.lines, labels + 1, p.yes.labels) && LabelsIn(p.no.lines, p.yes.labels, p.no.labels)
    ensures Avoids([Comment] + p.cond.lines + [Comment], labels + 1, p.yes.labels)
    ensures Avoids(p.Middle() + p.no.lines + p.End(), labels + 1, p.yes.labels)
    ensures Avoids([Comment] + p.cond.lines + [Comment] + p.yes.lines + p.Middle(), p.yes.labels, p.no.labels)
    ensures Avoids(p.End(), p.yes.labels, p.no.labels)
  {
  }
}
