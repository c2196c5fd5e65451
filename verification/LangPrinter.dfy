/** The printer as it runs: one output, one label counter, one namespace with its stack of sizes. */
module LangPrinter {
  import opened LangSyntax
  import opened LangOperands
  import opened LangCompile

  lemma IndexInPrefix(names: seq<string>, x: string, i: nat)
    requires i < |names| && names[i] == x && x !in names[..i]
    ensures IndexOf(names, x) == i
  {
    assert forall j :: 0 <= j < i ==> names[..i][j] != x;
  }

  lemma Append(o: seq<Line>, s: seq<Line>, x: seq<Line>)
    ensures (o + s) + x == o + (s + x)
  {
  }

  lemma Prefix(p: seq<string>, q: seq<string>, x: string)
    requires p <= q && x in p
    ensures x in q[..|p|]
  {
    assert q[..|p|] == p;
  }

  /** `e` only adds names and labels. */
  predicate Grows(names: seq<string>, labels: nat, e: Emitted) { names <= e.names && labels <= e.labels }

  /** Printing only adds to the namespace and the label counter. */
  lemma {:induction false} NamesGrow(a: Arith, t: Tree, names: seq<string>, labels: nat)
    requires Printable(t)
    ensures Grows(names, labels, Emit(a, t, names, labels))
  {
    hide Emit;
    if !t.OpT? {
      LeafGrows(a, t, names, labels);
    } else if t.op == VAR {
      AssignmentGrows(a, t, names, labels);
      NamesGrow(a, t.right, Insert(names, t.left.name), labels);
    } else if t.op == IF {
      EmitIf(a, t, names, labels);
      var p := PiecesOf(a, t, names, labels);
      NamesGrow(a, t.left, names, labels);
      NamesGrow(a, t.right.left, p.cond.names, p.cond.labels + 1);
      NamesGrow(a, t.right.right, p.yes.names, p.yes.labels);
    } else if t.op == SQRT {
      EmitOne(a, t, names, labels);
      NamesGrow(a, t.left, names, labels);
    } else {
      TwoOperands(a, t, names, labels);
      var e := Emit(a, First(t), names, labels);
      NamesGrow(a, First(t), names, labels);
      NamesGrow(a, Second(t), e.names, e.labels);
    }
  }

  lemma LeafGrows(a: Arith, t: Tree, names: seq<string>, labels: nat)
    requires Printable(t) && !t.OpT?
    ensures Grows(names, labels, Emit(a, t, names, labels))
  {
  }

  lemma AssignmentGrows(a: Arith, t: Tree, names: seq<string>, labels: nat)
    requires IsStmt(t) && t.op == VAR
    ensures names <= Insert(names, t.left.name)
    ensures var e := Emit(a, t.right, Insert(names, t.left.name), labels); var w := Emit(a, t, names, labels);
      w.names == e.names && w.labels == e.labels
  {
  }

  class Printer {
    const a: Arith
    var out: seq<Line>
    var labelCounter: nat
    var names: seq<string>
    var namespaceOffset: seq<nat>

    constructor (a: Arith)
      ensures this.a == a && out == [] && labelCounter == 0 && names == [] && namespaceOffset == [0]
    {
      this.a := a;
      out, labelCounter, names, namespaceOffset := [], 0, [], [0];
    }

    method Print(line: Line)
      modifies this`out
      ensures out == old(out) + [line]
    {
      out := out + [line];
    }

    /** The position of `name` among the first `amount` names; an unknown name is appended at that
        position, the top of the stack is replaced, and the answer is -1. */
    method GetVariablePos(amount: nat, name: string) returns (pos: int, amount': nat)
      requires |namespaceOffset| > 0 && amount <= |names|
      modifies this`names, this`namespaceOffset
      ensures name in old(names)[..amount] ==>
        pos == IndexOf(names, name) && amount' == amount && names == old(names) && namespaceOffset == old(namespaceOffset)
      ensures name !in old(names)[..amount] ==>
        && pos == -1 && amount' == amount + 1
        && names == old(names)[..amount] + [name] + (if amount < |old(names)| then old(names)[amount + 1..] else [])
        && namespaceOffset == old(namespaceOffset)[..|old(namespaceOffset)| - 1] + [amount + 1]
    {
      var i := 0;
      while i < amount
        invariant 0 <= i <= amount && name !in names[..i]
      {
        if names[i] == name {
          assert names[..amount][i] == name;
          IndexInPrefix(names, name, i);
          return i, amount;
        }
        i := i + 1;
      }
      names := names[..amount] + [name] + if amount < |names| then names[amount + 1..] else [];
      amount' := amount + 1;
      namespaceOffset := namespaceOffset[..|namespaceOffset| - 1];
      namespaceOffset := namespaceOffset + [amount'];
      pos := -1;
    }

    /** A first lookup makes sure that `name` has a position. */
    method Declare(name: string, ghost rest: seq<nat>) returns (varsBefore: nat)
      requires namespaceOffset == rest + [|names|]
      modifies this`names, this`namespaceOffset
      ensures names == Insert(old(names), name) && namespaceOffset == rest + [|names|] && varsBefore == |names|
      ensures name in names
    {
      varsBefore := namespaceOffset[|namespaceOffset| - 1];
      assert names[..varsBefore] == names;
      var pos;
      pos, varsBefore := GetVariablePos(varsBefore, name);
    }

    /** A later lookup finds it, however many names came after. */
    method Position(varsBefore: nat, name: string) returns (pos: nat)
      requires |namespaceOffset| > 0 && varsBefore <= |names| && name in names[..varsBefore]
      modifies this`names, this`namespaceOffset
      ensures names == old(names) && namespaceOffset == old(namespaceOffset) && pos == IndexOf(names, name)
    {
      var p, _ := GetVariablePos(varsBefore, name);
      pos := p;
    }

    /** The state after printing `e` behind `o`, over the sizes `rest` of the enclosing namespaces. */
    predicate At(o: seq<Line>, e: Emitted, rest: seq<nat>)
      reads this
    {
      out == o + e.lines && names == e.names && labelCounter == e.labels && namespaceOffset == rest + [|names|]
    }

    /** Prints a tree; the namespace is always current, so every second lookup of a name succeeds. */
    method PrintOperation(t: Tree, ghost rest: seq<nat>)
      requires Printable(t) && namespaceOffset == rest + [|names|]
      modifies this
      ensures At(old(out), Emit(a, t, old(names), old(labelCounter)), rest)
      decreases t, 1
    {
      hide Emit, Constant, Slot;
      if !t.OpT? { EmitLeaf(a, t, names, labelCounter); }
      if t == Null { return; }
      match t
      case NumT(v) =>
        Print(Push(Constant(a, v)));
      case VarT(x) =>
        var varsBefore := Declare(x, rest);
        Print(Comment);
        assert names[..varsBefore] == names;
        var pos := Position(varsBefore, x);
        Print(Push(Slot(pos)));
      case OpT(op, l, r) =>
        if op == VAR {
          PrintAssignment(t, rest);
        } else if op == IF {
          PrintConditional(t, rest);
        } else if op == SQRT {
          EmitOne(a, t, names, labelCounter);
          ghost var o, e := out, Emit(a, l, names, labelCounter);
          PrintOperation(l, rest);
          Print(Plain(SqrC));
          Append(o, e.lines, [Plain(SqrC)]);
        } else {
          PrintBinary(t, rest);
        }
    }

    method PrintAssignment(t: Tree, ghost rest: seq<nat>)
      requires IsStmt(t) && t.op == VAR && namespaceOffset == rest + [|names|]
      modifies this
      ensures At(old(out), Emit(a, t, old(names), old(labelCounter)), rest)
      decreases t, 0
    {
      hide Emit, Slot;
      ghost var o, n := out, names;
      ghost var e := Emit(a, t.right, Insert(names, t.left.name), labelCounter);
      EmitAssignment(a, t, names, labelCounter);
      var varsBefore := Declare(t.left.name, rest);
      NamesGrow(a, t.right, names, labelCounter);
      PrintOperation(t.right, rest);
      Prefix(Insert(n, t.left.name), names, t.left.name);
      Print(Comment);
      var pos := Position(varsBefore, t.left.name);
      Print(Pop(Slot(pos)));
      Append(o, e.lines, [Comment]);
      Append(o, e.lines + [Comment], [Pop(Slot(pos))]);
      Append(e.lines, [Comment], [Pop(Slot(pos))]);
    }

    method PrintBinary(t: Tree, ghost rest: seq<nat>)
      requires Printable(t) && t.OpT? && t.op != VAR && t.op != IF && t.op != SQRT && namespaceOffset == rest + [|names|]
      modifies this
      ensures At(old(out), Emit(a, t, old(names), old(labelCounter)), rest)
      decreases t, 0
    {
      hide Emit, Tail;
      TwoOperands(a, t, names, labelCounter);
      ghost var o := out;
      ghost var e := Emit(a, First(t), names, labelCounter);
      ghost var f := Emit(a, Second(t), e.names, e.labels);
      if RightFirst(t.op) {
        PrintOperation(t.right, rest);
        PrintOperation(t.left, rest);
      } else {
        PrintOperation(t.left, rest);
        PrintOperation(t.right, rest);
      }
      PrintTail(t.op);
      Append(o, e.lines, f.lines);
      Append(o, e.lines + f.lines, Tail(t.op, f.labels));
    }

    method PrintConditional(t: Tree, ghost rest: seq<nat>)
      requires IsStmt(t) && t.op == IF && namespaceOffset == rest + [|names|]
      modifies this
      ensures At(old(out), Emit(a, t, old(names), old(labelCounter)), rest)
      decreases t, 0
    {
      hide Emit;
      ConditionThenArms(a, t, names, labelCounter);
      ghost var o := out;
      ghost var c := Emit(a, t.left, names, labelCounter);
      ghost var arms := EmitElse(a, t.right, c);
      Print(Comment);
      PrintOperation(t.left, rest);
      PrintElse(t.right, rest);
      Append(o, [Comment], c.lines);
      Append(o, [Comment] + c.lines, arms.lines);
    }

    method PrintElse(t: Tree, ghost rest: seq<nat>)
      requires t.OpT? && t.op == ELSE && namespaceOffset == rest + [|names|]
      requires (t.left == Null || IsStmt(t.left)) && (t.right == Null || IsStmt(t.right))
      modifies this
      ensures At(old(out), EmitElse(a, t, Emitted([], old(names), old(labelCounter))), rest)
      decreases t, 0
    {
      hide Emit;
      ghost var o := out;
      ghost var yes := Emit(a, t.left, names, labelCounter + 1);
      ghost var no := Emit(a, t.right, yes.names, yes.labels);
      var curLabel := labelCounter;
      labelCounter := labelCounter + 1;
      Print(Comment);
      PrintOperation(t.left, rest);
      PrintArms(curLabel);
      PrintOperation(t.right, rest);
      Print(LabelDef(ElseLabel(curLabel)));
      ghost var middle := [Jump(Jmp, ElseLabel(curLabel)), LabelDef(IfLabel(curLabel)), Comment];
      Append(o, [Comment], yes.lines);
      Append(o, [Comment] + yes.lines, middle);
      Append(o, [Comment] + yes.lines + middle, no.lines);
      Append(o, [Comment] + yes.lines + middle + no.lines, [LabelDef(ElseLabel(curLabel))]);
    }

    /** What separates the two arms. */
    method PrintArms(n: nat)
      modifies this`out
      ensures out == old(out) + [Jump(Jmp, ElseLabel(n)), LabelDef(IfLabel(n)), Comment]
    {
      Print(Jump(Jmp, ElseLabel(n)));
      Print(LabelDef(IfLabel(n)));
      Print(Comment);
    }

    method PrintTail(op: Op)
      modifies this`out
      ensures out == old(out) + Tail(op, labelCounter)
    {
      match op
      case ADD => Print(Plain(AddC));
      case SUB => Print(Plain(SubC));
      case MUL => Print(Plain(MulC));
      case DIV => Print(Plain(DivC));
      case SQRT => Print(Plain(SqrC));
      case IS_EE => Print(Jump(Jne, IfLabel(labelCounter)));
      case IS_NE => Print(Jump(Je, IfLabel(labelCounter)));
      case _ =>
    }
  }
}
