/** The toy language's trees, its assembly lines, and the arithmetic both ends share. */
module LangSyntax {
  import opened LangNumerals

  type Byte = b: int | 0 <= b < 256

  /** A machine number: eight bytes whose meaning only the arithmetic below knows. */
  type Elem = s: seq<Byte> | |s| == 8 witness seq(8, _ => 0)

  /** Double arithmetic as far as the compiler depends on it. */
  datatype Arith = Arith(
    add: (Elem, Elem) -> Elem, sub: (Elem, Elem) -> Elem, mul: (Elem, Elem) -> Elem, div: (Elem, Elem) -> Elem,
    sqrt: Elem -> Elem, eq: (Elem, Elem) -> bool, ofInt: int -> Elem, toInt: Elem -> int,
    shown: Elem -> Printed, nearest: Number -> Elem)

  const INT_LIMIT := 0x8000_0000

  /** Decimal exponents up to this size are well inside the range of doubles. */
  const NORMAL := 307

  /** Addition, multiplication and equality commute; integers in the range of a C int are exact; a double
      keeps six significant digits. */
  ghost predicate Sane(a: Arith) {
    && (forall x, y :: a.add(x, y) == a.add(y, x))
    && (forall x, y :: a.mul(x, y) == a.mul(y, x))
    && (forall x, y :: a.eq(x, y) == a.eq(y, x))
    && (forall i :: 0 < i < INT_LIMIT ==> a.toInt(a.sub(a.ofInt(i), a.ofInt(1))) == i - 1)
    && (forall i :: 0 <= i < INT_LIMIT ==> a.toInt(a.ofInt(i)) == i && a.add(a.ofInt(i), ZERO) == a.ofInt(i))
    && (forall i: nat :: i < INT_LIMIT ==> a.nearest(Lowest(false, i, 0)) == a.ofInt(i))
    && (forall s: Printed :: s.Finite? && -NORMAL <= s.exp <= NORMAL ==> a.shown(a.nearest(Meaning(s))) == s)
  }

  datatype Op = ADD | SUB | MUL | DIV | SQRT | IS_EE | IS_NE | ST | IF | ELSE | VAR

  /** A node of the syntax tree; `Null` is a missing child. */
  datatype Tree = Null | NumT(num: Elem) | VarT(name: string) | OpT(op: Op, left: Tree, right: Tree)

  predicate IsExpr(t: Tree) {
    match t
    case Null => false
    case NumT(_) => true
    case VarT(_) => true
    case OpT(op, l, r) =>
      if op == ADD || op == SUB || op == MUL || op == DIV then IsExpr(l) && IsExpr(r)
      else op == SQRT && IsExpr(l)
  }

  predicate IsCond(t: Tree) {
    t.OpT? && (t.op == IS_EE || t.op == IS_NE) && IsExpr(t.left) && IsExpr(t.right)
  }

  /** The statements covered: sequencing, assignment, and two-armed conditionals on (in)equality. */
  predicate IsStmt(t: Tree) {
    t.OpT? &&
    match t.op
    case ST => (t.left == Null || IsStmt(t.left)) && (t.right == Null || IsStmt(t.right))
    case VAR => t.left.VarT? && IsExpr(t.right)
    case IF =>
      IsCond(t.left) && t.right.OpT? && t.right.op == ELSE
      && (t.right.left == Null || IsStmt(t.right.left)) && (t.right.right == Null || IsStmt(t.right.right))
    case _ => false
  }

  /** Labels the back end prints, and any other name in the file. */
  datatype Label = IfLabel(n: nat) | ElseLabel(n: nat) | Named(s: string)

  datatype Command = HltC | MulC | AddC | SubC | DivC | RetC | SqrC | EndC
  datatype JumpKind = Jmp | Je | Jne | Call

  /** The argument of push and pop: an immediate, a register or their sum, perhaps as a RAM address. */
  datatype Operand = Imm(mem: bool, v: Elem) | Reg(mem: bool, r: Byte) | Sum(mem: bool, v: Elem, r: Byte)

  datatype Line =
    | Comment
    | LabelDef(name: Label)
    | Push(arg: string)
    | Pop(arg: string)
    | Plain(c: Command)
    | Jump(kind: JumpKind, dest: Label)

  function CommandCode(c: Command): Byte {
    match c
    case HltC => 0 case MulC => 2 case AddC => 3 case SubC => 4 case DivC => 5 case RetC => 18 case SqrC => 19 case EndC => 28
  }

  function JumpCode(k: JumpKind): Byte {
    match k case Jmp => 9 case Je => 14 case Jne => 15 case Call => 17
  }

  const PUSH: Byte := 1
  const POP: Byte := 6

  // ----- The meaning of the source -----

  /** The value of every variable assigned so far; the others are still the zero of fresh RAM. */
  type Store = map<string, Elem>

  const ZERO: Elem := [0, 0, 0, 0, 0, 0, 0, 0]

  function Lookup(s: Store, x: string): Elem { if x in s then s[x] else ZERO }

  function Eval(a: Arith, t: Tree, s: Store): Elem
    requires IsExpr(t)
  {
    match t
    case NumT(v) => v
    case VarT(x) => Lookup(s, x)
    case OpT(op, l, r) =>
      if op == SQRT then a.sqrt(Eval(a, l, s))
      else if op == ADD then a.add(Eval(a, l, s), Eval(a, r, s))
      else if op == SUB then a.sub(Eval(a, l, s), Eval(a, r, s))
      else if op == MUL then a.mul(Eval(a, l, s), Eval(a, r, s))
      else a.div(Eval(a, l, s), Eval(a, r, s))
  }

  predicate Holds(a: Arith, t: Tree, s: Store)
    requires IsCond(t)
  {
    a.eq(Eval(a, t.left, s), Eval(a, t.right, s)) == (t.op == IS_EE)
  }

  /** Runs a statement, or nothing for a missing child. */
  function Exec(a: Arith, t: Tree, s: Store): Store
    requires t == Null || IsStmt(t)
  {
    if t == Null then s
    else if t.op == ST then Exec(a, t.right, Exec(a, t.left, s))
    else if t.op == VAR then s[t.left.name := Eval(a, t.right, s)]
    else if Holds(a, t.left, s) then Exec(a, t.right.left, s)
    else Exec(a, t.right.right, s)
  }
}
