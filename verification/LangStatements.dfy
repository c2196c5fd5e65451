/** Conditions, statements and whole programs. */
module LangStatements {
  import opened LangSyntax
  import opened LangOperands
  import opened LangCompile
  import opened LangAssembler
  import opened LangMachine
  import opened LangCorrect
  import opened LangLabels
  import opened LangTheorem
  import opened LangPrinter

  lemma {:induction false} CondCorrect(c: Context, t: Tree, names: seq<string>, labels: nat, i: nat, j: nat, s: Store, m: Machine)
    requires IsCond(t) && Ready(c, m, s, Emit(c.a, t, names, labels), i)
    requires j < |c.lines| && c.lines[j] == LabelDef(IfLabel(labels))
    requires forall k :: 0 <= k < |c.lines| && k != j ==> c.lines[k] != LabelDef(IfLabel(labels))
    ensures var e := Emit(c.a, t, names, labels);
      i + |e.lines| <= |c.lines| && |m.regs| == REGS && |m.ram| == RAM_SIZE
      && Reaches(c, m, After(c, m, if Taken(c, t, s) then i + |e.lines| else j, m.stack))
  {
    hide Emit, ValidContext, Addresses, Represents, Reaches, Worth, Ready, Pos, HasAt, Taken;
    OperandsCorrect(c, t, names, labels, i, s, m);
    EmitTwo(c.a, t, names, labels);
    var w := Emit(c.a, t, names, labels);
    var e := Emit(c.a, First(t), names, labels);
    var f := Emit(c.a, Second(t), e.names, e.labels);
    LabelRange(c.a, First(t), names, labels);
    LabelRange(c.a, Second(t), e.names, e.labels);
    SameFrame(c, m, s, w, i);
    BranchAfter(c, t, i + |e.lines| + |f.lines|, j, labels, s, m);
  }

  /** The jump that ends a condition. */
  lemma BranchAfter(c: Context, t: Tree, k: nat, j: nat, n: nat, s: Store, m: Machine)
    requires IsCond(t) && ValidContext(c) && Addresses(c, m) && |m.regs| == REGS && |m.ram| == RAM_SIZE
    requires k <= |c.lines| && HasAt(c.lines, k, Tail(t.op, n))
    requires Reaches(c, m, After(c, m, k, m.stack + [Worth(c, First(t), s), Worth(c, Second(t), s)]))
    requires j < |c.lines| && c.lines[j] == LabelDef(IfLabel(n))
    requires forall i :: 0 <= i < |c.lines| && i != j ==> c.lines[i] != LabelDef(IfLabel(n))
    ensures k + 1 <= |c.lines| && Reaches(c, m, After(c, m, if Taken(c, t, s) then k + 1 else j, m.stack))
  {
    HoldsMeaning(c, t, s);
    hide ValidContext, Addresses, Reaches, Worth, Pos, HasAt, Taken;
    var u, v := Worth(c, First(t), s), Worth(c, Second(t), s);
    var kind := if t.op == IS_EE then Jne else Je;
    OneLine(c.lines, k, Jump(kind, IfLabel(n)));
    var m1 := After(c, m, k, m.stack + [u, v]);
    MovedAddresses(c, m, m1);
    BranchLine(c, k, kind, j, IfLabel(n), m1, m.stack, u, v);
    ReachesTransitive(c, m, m1, After(c, m, if Taken(c, t, s) then k + 1 else j, m.stack));
  }

  lemma HoldsMeaning(c: Context, t: Tree, s: Store)
    requires ValidContext(c) && IsCond(t)
    ensures Taken(c, t, s) == (c.a.eq(Worth(c, Second(t), s), Worth(c, First(t), s)) == (t.op == IS_EE))
  {
    assert c.a.eq(Worth(c, t.left, s), Worth(c, t.right, s)) == c.a.eq(Worth(c, t.right, s), Worth(c, t.left, s));
  }

  lemma MovedAddresses(c: Context, m: Machine, m': Machine)
    requires Addresses(c, m) && m'.regs == m.regs && |m'.ram| == RAM_SIZE
    ensures Addresses(c, m')
  {
  }

  /** Everything a statement's induction step assumes. */
  ghost predicate Start(c: Context, m: Machine, s: Store, e: Emitted, i: nat, labels: nat) {
    Ready(c, m, s, e, i) && Reserved(c.lines, i, i + |e.lines|, labels, e.labels)
  }

  /** From `m` the program gets to line `j` with the same stack and registers, RAM holding `s'` in its
      slots and what it held before elsewhere. */
  ghost predicate Achieves(c: Context, m: Machine, j: nat, s': Store, ram': seq<Elem>) {
    && j <= |c.lines| && |m.regs| == REGS && |m.ram| == RAM_SIZE
    && Reaches(c, m, m.(ip := Pos(c.lines, j), ram := ram'))
    && Represents(c, s', ram') && SameElsewhere(c, m.ram, ram')
  }

  lemma AchievesThen(c: Context, m: Machine, j: nat, s': Store, ram': seq<Elem>, k: nat, s'': Store, ram'': seq<Elem>)
    requires Achieves(c, m, j, s', ram') && Achieves(c, m.(ip := Pos(c.lines, j), ram := ram'), k, s'', ram'')
    ensures Achieves(c, m, k, s'', ram'')
  {
    hide Reaches, Represents;
    assert |ram'| == RAM_SIZE;
    ReachesTransitive(c, m, m.(ip := Pos(c.lines, j), ram := ram'), m.(ip := Pos(c.lines, k), ram := ram''));
  }

  lemma AchievesNothing(c: Context, m: Machine, i: nat, s: Store)
    requires i <= |c.lines| && |m.regs| == REGS && |m.ram| == RAM_SIZE && Represents(c, s, m.ram) && m.ip == Pos(c.lines, i)
    ensures Achieves(c, m, i, s, m.ram)
  {
    ReachesSelf(c, m);
    assert m.(ip := Pos(c.lines, i), ram := m.ram) == m;
  }

  lemma StartFacts(c: Context, m: Machine, s: Store, e: Emitted, i: nat, labels: nat)
    requires Start(c, m, s, e, i, labels)
    ensures i + |e.lines| <= |c.lines| && |m.regs| == REGS && |m.ram| == RAM_SIZE
    ensures ValidContext(c) && Addresses(c, m) && Represents(c, s, m.ram)
    ensures HasAt(c.lines, i, e.lines) && m.ip == Pos(c.lines, i)
    ensures Reserved(c.lines, i, i + |e.lines|, labels, e.labels)
  {
  }

  lemma MiddleAt(lines: seq<Line>, i: nat, x: seq<Line>, f: seq<Line>, y: seq<Line>)
    requires HasAt(lines, i, x + f + y)
    ensures HasAt(lines, i + |x|, f)
  {
    SplitAt(lines, i, x + f, y);
    SplitAt(lines, i, x, f);
  }

  /** The part of a statement that belongs to one of its children. */
  lemma StartPart(c: Context, m: Machine, s: Store, e: Emitted, i: nat, labels: nat,
      x: seq<Line>, f: Emitted, y: seq<Line>, labels': nat, m': Machine, k: nat, s': Store)
    requires Start(c, m, s, e, i, labels) && e.lines == x + f.lines + y && f.names <= e.names
    requires labels <= labels' && f.labels <= e.labels && Avoids(x, labels', f.labels) && Avoids(y, labels', f.labels)
    requires m'.regs == m.regs && |m'.ram| == RAM_SIZE && Represents(c, s', m'.ram)
    requires k == i + |x| <= |c.lines| && m'.ip == Pos(c.lines, k)
    ensures Start(c, m', s', f, k, labels')
  {
    hide Start, Ready, ValidContext, Addresses, Represents, Pos, HasAt, Avoids, Reserved;
    StartFacts(c, m, s, e, i, labels);
    MiddleAt(c.lines, i, x, f.lines, y);
    MovedAddresses(c, m, m');
    ReservedPart(c.lines, i, x, f.lines, y, labels, e.labels, labels', f.labels);
    Started(c, m', s', f, k, labels', m, s, e, i, labels);
  }

  lemma Started(c: Context, m': Machine, s': Store, f: Emitted, k: nat, labels': nat,
      m: Machine, s: Store, e: Emitted, i: nat, labels: nat)
    requires Start(c, m, s, e, i, labels) && f.names <= e.names
    requires Addresses(c, m') && Represents(c, s', m'.ram)
    requires HasAt(c.lines, k, f.lines) && m'.ip == Pos(c.lines, k)
    requires Reserved(c.lines, k, k + |f.lines|, labels', f.labels)
    ensures Start(c, m', s', f, k, labels')
  {
    hide ValidContext, Addresses, Represents, Pos, HasAt, Reserved;
  }

  /** A statement does to RAM what it means, at the slots of its variables and nowhere else. */
  lemma {:induction false} StmtCorrect(c: Context, t: Tree, names: seq<string>, labels: nat, i: nat, s: Store, m: Machine)
    returns (ram': seq<Elem>)
    requires (t == Null || IsStmt(t)) && Start(c, m, s, Emit(c.a, t, names, labels), i, labels)
    ensures Achieves(c, m, i + |Emit(c.a, t, names, labels).lines|, Effect(c, t, s), ram')
    decreases t, 1
  {
    hide Emit, Start, Achieves, Effect;
    if t == Null {
      NullCorrect(c, names, labels, i, s, m);
      ram' := m.ram;
    } else if t.op == ST {
      ram' := SequenceCorrect(c, t, names, labels, i, s, m);
    } else if t.op == VAR {
      ram' := AssignmentCorrect(c, t, names, labels, i, s, m);
    } else {
      ram' := ConditionalCorrect(c, t, names, labels, i, s, m);
    }
  }

  lemma NullNothing(c: Context, names: seq<string>, labels: nat, s: Store)
    ensures Emit(c.a, Null, names, labels).lines == [] && Effect(c, Null, s) == s
  {
  }

  lemma NullCorrect(c: Context, names: seq<string>, labels: nat, i: nat, s: Store, m: Machine)
    requires Start(c, m, s, Emit(c.a, Null, names, labels), i, labels)
    ensures Achieves(c, m, i + |Emit(c.a, Null, names, labels).lines|, Effect(c, Null, s), m.ram)
  {
    hide Emit, Start, Achieves, Represents, Reaches, ValidContext, Addresses, HasAt, Pos, Reserved;
    NullNothing(c, names, labels, s);
    StartFacts(c, m, s, Emit(c.a, Null, names, labels), i, labels);
    AchievesNothing(c, m, i, s);
  }

  lemma ExecSequence(c: Context, t: Tree, s: Store)
    requires IsStmt(t) && t.op == ST
    ensures Effect(c, t, s) == Effect(c, t.right, Effect(c, t.left, s))
  {
  }

  /** What the first of two parts may reserve, and the second. */
  lemma SplitLabels(x: seq<Line>, y: seq<Line>, lo: nat, mid: nat, hi: nat)
    requires lo <= mid <= hi && LabelsIn(x, lo, mid) && LabelsIn(y, mid, hi)
    ensures Avoids(x, mid, hi) && Avoids(y, lo, mid) && Avoids([], lo, mid) && Avoids([], mid, hi)
  {
  }

  lemma {:induction false} SequenceCorrect(c: Context, t: Tree, names: seq<string>, labels: nat, i: nat, s: Store, m: Machine)
    returns (ram': seq<Elem>)
    requires IsStmt(t) && t.op == ST && Start(c, m, s, Emit(c.a, t, names, labels), i, labels)
    ensures Achieves(c, m, i + |Emit(c.a, t, names, labels).lines|, Effect(c, t, s), ram')
    decreases t, 0
  {
    hide Emit, Start, Achieves, Effect, ValidContext, Addresses, Represents, Pos, HasAt, Avoids, Reserved, LabelsIn, Reaches;
    EmitTwo(c.a, t, names, labels);
    ExecSequence(c, t, s);
    var w := Emit(c.a, t, names, labels);
    var e := Emit(c.a, t.left, names, labels);
    var f := Emit(c.a, t.right, e.names, e.labels);
    LabelRange(c.a, t.left, names, labels);
    LabelRange(c.a, t.right, e.names, e.labels);
    SplitLabels(e.lines, f.lines, labels, e.labels, f.labels);
    StartFacts(c, m, s, w, i, labels);
    assert w.lines == [] + e.lines + f.lines && w.lines == e.lines + f.lines + [];
    StartPart(c, m, s, w, i, labels, [], e, f.lines, labels, m, i, s);
    var ram1 := StmtCorrect(c, t.left, names, labels, i, s, m);
    var s1, m1 := Effect(c, t.left, s), m.(ip := Pos(c.lines, i + |e.lines|), ram := ram1);
    AchievesFacts(c, m, i + |e.lines|, s1, ram1);
    StartPart(c, m, s, w, i, labels, e.lines, f, [], e.labels, m1, i + |e.lines|, s1);
    ram' := StmtCorrect(c, t.right, e.names, e.labels, i + |e.lines|, s1, m1);
    AchievesThen(c, m, i + |e.lines|, s1, ram1, i + |e.lines| + |f.lines|, Effect(c, t, s), ram');
  }

  lemma AchievesFacts(c: Context, m: Machine, j: nat, s': Store, ram': seq<Elem>)
    requires Achieves(c, m, j, s', ram')
    ensures Represents(c, s', ram') && |ram'| == RAM_SIZE && j <= |c.lines|
  {
  }

  // ----- Assignments -----

  lemma ExecAssignment(c: Context, t: Tree, s: Store)
    requires IsStmt(t) && t.op == VAR
    ensures Effect(c, t, s) == s[t.left.name := Worth(c, t.right, s)]
  {
    var r := AsLoaded(c.a, c.rax, t);
    assert AsLoaded(c.a, c.rax, t.left) == t.left;
    assert r == OpT(VAR, t.left, AsLoaded(c.a, c.rax, t.right));
  }

  /** Writing the slot of `x` is updating `x`. */
  lemma WrittenSlot(c: Context, d: nat, s: Store, ram: seq<Elem>, v: Elem)
    requires ValidContext(c) && Represents(c, s, ram) && d < |c.names|
    ensures 0 <= c.base + d < |ram|
    ensures Represents(c, s[c.names[d] := v], ram[c.base + d := v]) && SameElsewhere(c, ram, ram[c.base + d := v])
  {
  }

  /** The two lines that write slot `d`. */
  lemma WriteSlot(c: Context, x: seq<Line>, i: nat, d: nat, v: Elem, m: Machine)
    requires ValidContext(c) && Addresses(c, m) && |m.regs| == REGS && |m.ram| == RAM_SIZE
    requires d < |c.names| && 0 <= c.base + d < |m.ram|
    requires HasAt(c.lines, i, x + ([Comment] + [Pop(Slot(d))])) && i + |x| <= |c.lines|
    requires Reaches(c, m, After(c, m, i + |x|, m.stack + [v]))
    ensures i + |x| + 2 <= |c.lines|
    ensures Reaches(c, m, m.(ip := Pos(c.lines, i + |x| + 2), ram := m.ram[c.base + d := v]))
  {
    hide ValidContext, Addresses, Reaches, Pos, HasAt, Slot;
    var k, pop := i + |x|, Pop(Slot(d));
    SplitAt(c.lines, i, x, [Comment] + [pop]);
    LastLine(c.lines, k, [Comment], pop);
    OneLine(c.lines, k, Comment);
    SilentLine(c, k);
    var m1 := After(c, m, k, m.stack + [v]);
    MovedAddresses(c, m, m1);
    PopSlot(c, k + 1, d, m1, v, m.stack);
    ReachesTransitive(c, m, m1, m.(ip := Pos(c.lines, k + 2), ram := m.ram[c.base + d := v]));
  }

  lemma {:induction false} AssignmentCorrect(c: Context, t: Tree, names: seq<string>, labels: nat, i: nat, s: Store, m: Machine)
    returns (ram': seq<Elem>)
    requires IsStmt(t) && t.op == VAR && Start(c, m, s, Emit(c.a, t, names, labels), i, labels)
    ensures Achieves(c, m, i + |Emit(c.a, t, names, labels).lines|, Effect(c, t, s), ram')
    decreases t, 0
  {
    hide Emit, Start, Ready, Effect, Worth, ValidContext, Addresses, Represents, Pos, HasAt, Reserved, Reaches, SameElsewhere, Slot;
    var w := Emit(c.a, t, names, labels);
    var e := Emit(c.a, t.right, Insert(names, t.left.name), labels);
    var d := EmitVar(c.a, t, names, labels);
    ExecAssignment(c, t, s);
    StartFacts(c, m, s, w, i, labels);
    StartReady(c, m, s, w, i, labels);
    HasWhole(c, m, s, w, i);
    ReadyFirst(c, m, s, w, i, [Comment] + [Pop(Slot(d))], e);
    ExprCorrect(c, t.right, Insert(names, t.left.name), labels, i, s, m);
    var v := Worth(c, t.right, s);
    assert c.names[d] == t.left.name;
    WrittenSlot(c, d, s, m.ram, v);
    WriteSlot(c, e.lines, i, d, v, m);
    ram' := m.ram[c.base + d := v];
  }

  lemma StartReady(c: Context, m: Machine, s: Store, e: Emitted, i: nat, labels: nat)
    requires Start(c, m, s, e, i, labels)
    ensures Ready(c, m, s, e, i)
  {
  }

  // ----- Conditionals -----

  lemma ExecConditional(c: Context, t: Tree, s: Store)
    requires IsStmt(t) && t.op == IF
    ensures Effect(c, t, s) == if Taken(c, t.left, s) then Effect(c, t.right.left, s) else Effect(c, t.right.right, s)
  {
    var r := AsLoaded(c.a, c.rax, t);
    assert r == OpT(IF, AsLoaded(c.a, c.rax, t.left), AsLoaded(c.a, c.rax, t.right));
    assert r.right == OpT(ELSE, AsLoaded(c.a, c.rax, t.right.left), AsLoaded(c.a, c.rax, t.right.right));
  }

  /** The pieces of a conditional where the program has it. */
  lemma ConditionalPieces(c: Context, t: Tree, names: seq<string>, labels: nat, i: nat, s: Store, m: Machine)
    requires IsStmt(t) && t.op == IF && Start(c, m, s, Emit(c.a, t, names, labels), i, labels)
    ensures var p, w := PiecesOf(c.a, t, names, labels), Emit(c.a, t, names, labels);
      && w == Emitted(p.Lines(), p.no.names, p.no.labels) && p.Number() == labels && Laid(c.lines, i, p)
      && |p.Lines()| == p.AtEnd(0) + 1 && p.cond.names <= w.names && p.yes.names <= w.names
      && labels < p.yes.labels <= p.no.labels
      && Avoids([Comment] + p.cond.lines + [Comment], labels + 1, p.yes.labels)
      && Avoids(p.Middle() + p.no.lines + p.End(), labels + 1, p.yes.labels)
      && Avoids([Comment] + p.cond.lines + [Comment] + p.yes.lines + p.Middle(), p.yes.labels, p.no.labels)
      && Avoids(p.End(), p.yes.labels, p.no.labels)
  {
    hide Emit, Start, Laid, LabelsIn, Avoids, Reserved, HasAt, ValidContext, Addresses, Represents;
    EmitIf(c.a, t, names, labels);
    IfLabels(c.a, t, names, labels);
    var p, w := PiecesOf(c.a, t, names, labels), Emit(c.a, t, names, labels);
    NamesGrow(c.a, t.right.left, p.cond.names, labels + 1);
    NamesGrow(c.a, t.right.right, p.yes.names, p.yes.labels);
    StartFacts(c, m, s, w, i, labels);
    Layout(c.lines, i, p, labels);
    ArmsAvoid(p, labels);
  }

  lemma SilentLines(c: Context, i: nat, p: Pieces)
    requires ValidContext(c) && Laid(c.lines, i, p)
    ensures Pos(c.lines, i + 1) == Pos(c.lines, i) && Pos(c.lines, p.AtYes(i)) == Pos(c.lines, p.AtYes(i) - 1)
    ensures Pos(c.lines, p.AtNo(i)) == Pos(c.lines, p.AtJump(i) + 1) && Pos(c.lines, p.AtEnd(i) + 1) == Pos(c.lines, p.AtEnd(i))
  {
    hide ValidContext, Pos;
    SilentLine(c, i);
    SilentLine(c, p.AtYes(i) - 1);
    SilentLine(c, p.AtJump(i) + 1);
    SilentLine(c, p.AtNo(i) - 1);
    SilentLine(c, p.AtEnd(i));
  }

  /** The condition is behind the comment that begins a conditional. */
  lemma ConditionReady(c: Context, t: Tree, names: seq<string>, labels: nat, i: nat, s: Store, m: Machine)
    requires IsStmt(t) && t.op == IF && Start(c, m, s, Emit(c.a, t, names, labels), i, labels)
    ensures var p := PiecesOf(c.a, t, names, labels);
      Laid(c.lines, i, p) && p.Number() == labels && |p.Lines()| == p.AtEnd(0) + 1 && Ready(c, m, s, p.cond, i + 1)
  {
    hide Emit, Start, Ready, Laid, Avoids, Reserved, HasAt, ValidContext, Addresses, Represents, Pos;
    ConditionalPieces(c, t, names, labels, i, s, m);
    var p, w := PiecesOf(c.a, t, names, labels), Emit(c.a, t, names, labels);
    StartFacts(c, m, s, w, i, labels);
    StartReady(c, m, s, w, i, labels);
    SilentLines(c, i, p);
    var rest := p.cond.lines + ([Comment] + p.yes.lines + p.Middle() + p.no.lines + p.End());
    assert w.lines == [Comment] + rest;
    ReadyPart(c, m, s, w, i, [Comment], rest, p.cond, m, s);
  }

  /** The condition decides which arm is next. */
  lemma {:induction false} TestCorrect(c: Context, t: Tree, names: seq<string>, labels: nat, i: nat, s: Store, m: Machine)
    requires IsStmt(t) && t.op == IF && Start(c, m, s, Emit(c.a, t, names, labels), i, labels)
    ensures var p := PiecesOf(c.a, t, names, labels);
      Achieves(c, m, if Taken(c, t.left, s) then p.AtYes(i) else p.AtNo(i), s, m.ram)
  {
    hide Emit, Start, Ready, Reserved, HasAt, ValidContext, Addresses, Represents, Pos, Reaches, Taken, SameElsewhere;
    ConditionReady(c, t, names, labels, i, s, m);
    var p := PiecesOf(c.a, t, names, labels);
    StartFacts(c, m, s, Emit(c.a, t, names, labels), i, labels);
    SilentLines(c, i, p);
    CondCorrect(c, t.left, names, labels, i + 1, p.AtJump(i) + 1, s, m);
    SameMemory(c, m, s);
  }

  lemma SameMemory(c: Context, m: Machine, s: Store)
    requires Represents(c, s, m.ram)
    ensures SameElsewhere(c, m.ram, m.ram) && forall i: int :: m.(ip := i, ram := m.ram) == m.(ip := i, stack := m.stack)
  {
  }

  lemma {:induction false} ConditionalCorrect(c: Context, t: Tree, names: seq<string>, labels: nat, i: nat, s: Store, m: Machine)
    returns (ram': seq<Elem>)
    requires IsStmt(t) && t.op == IF && Start(c, m, s, Emit(c.a, t, names, labels), i, labels)
    ensures Achieves(c, m, i + |Emit(c.a, t, names, labels).lines|, Effect(c, t, s), ram')
    decreases t, 0
  {
    hide Emit, Start, Laid, Avoids, Reserved, HasAt, ValidContext, Addresses, Represents, Pos, Reaches, Taken, Effect, Achieves;
    ConditionalPieces(c, t, names, labels, i, s, m);
    ExecConditional(c, t, s);
    var p, w := PiecesOf(c.a, t, names, labels), Emit(c.a, t, names, labels);
    TestCorrect(c, t, names, labels, i, s, m);
    StartFacts(c, m, s, w, i, labels);
    SilentLines(c, i, p);
    if Taken(c, t.left, s) {
      var m1 := m.(ip := Pos(c.lines, p.AtYes(i)), ram := m.ram);
      var x := [Comment] + p.cond.lines + [Comment];
      assert w.lines == x + p.yes.lines + (p.Middle() + p.no.lines + p.End());
      StartPart(c, m, s, w, i, labels, x, p.yes, p.Middle() + p.no.lines + p.End(), labels + 1, m1, p.AtYes(i), s);
      ram' := StmtCorrect(c, t.right.left, p.cond.names, labels + 1, p.AtYes(i), s, m1);
      AchievesThen(c, m, p.AtYes(i), s, m.ram, p.AtJump(i), Effect(c, t, s), ram');
      SkipElse(c, m, i, p, Effect(c, t, s), ram');
    } else {
      var m1 := m.(ip := Pos(c.lines, p.AtNo(i)), ram := m.ram);
      var x := [Comment] + p.cond.lines + [Comment] + p.yes.lines + p.Middle();
      assert w.lines == x + p.no.lines + p.End();
      StartPart(c, m, s, w, i, labels, x, p.no, p.End(), p.yes.labels, m1, p.AtNo(i), s);
      ram' := StmtCorrect(c, t.right.right, p.yes.names, p.yes.labels, p.AtNo(i), s, m1);
      AchievesThen(c, m, p.AtNo(i), s, m.ram, p.AtEnd(i), Effect(c, t, s), ram');
      PastEnd(c, m, i, p, Effect(c, t, s), ram');
    }
  }

  /** The end label is no command. */
  lemma PastEnd(c: Context, m: Machine, i: nat, p: Pieces, s': Store, ram': seq<Elem>)
    requires ValidContext(c) && Laid(c.lines, i, p) && Achieves(c, m, p.AtEnd(i), s', ram')
    ensures Achieves(c, m, p.AtEnd(i) + 1, s', ram')
  {
    hide ValidContext, Reaches, Represents, SameElsewhere, Pos;
    SilentLines(c, i, p);
  }

  /** The first arm ends with a jump over the second. */
  lemma SkipElse(c: Context, m: Machine, i: nat, p: Pieces, s': Store, ram': seq<Elem>)
    requires ValidContext(c) && Addresses(c, m) && Laid(c.lines, i, p) && Achieves(c, m, p.AtJump(i), s', ram')
    ensures Achieves(c, m, p.AtEnd(i) + 1, s', ram')
  {
    hide ValidContext, Addresses, Reaches, Represents, SameElsewhere, Pos;
    AchievesFacts(c, m, p.AtJump(i), s', ram');
    SilentLines(c, i, p);
    var m1 := m.(ip := Pos(c.lines, p.AtJump(i)), ram := ram');
    MovedAddresses(c, m, m1);
    JumpLine(c, p.AtJump(i), p.AtEnd(i), ElseLabel(p.Number()), m1);
    ReachesTransitive(c, m, m1, m.(ip := Pos(c.lines, p.AtEnd(i)), ram := ram'));
  }
}
