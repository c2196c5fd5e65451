/** The syntax tree on disk: the front end writes it in prefix form, the back end reads it back. The file is
    taken as its braces, words, quoted names and numerals; in the tree a number is its 64-bit word. */
module LangDisk {
  import opened Wrappers
  import N = LangNumerals

  /** How doubles are printed and read. */
  datatype Doubles = Doubles(shown: int -> N.Printed, nearest: N.Number -> int)

  datatype Options =
    | UNKNOWN | ADD | SUB | DIV | MUL | POW | AND | OR | EQ | SQRT | SIN | COS
    | IS_EE | IS_GE | IS_BE | IS_GT | IS_BT | IS_NE
    | ST | IF | ELSE | NIL | VAR | WHILE | FUNC | RET | CALL | PARAM | OUT | IN
    | OPEN_BR | CLOSE_BR | TERMINATION_SYM | SEMI_COL | VOID | TYPE

  datatype Node =
    | Null
    | NumT(num: int)
    | VarT(name: string, left: Node, right: Node)
    | NameT(name: string, left: Node, right: Node)
    | NameShortT(name: string, left: Node, right: Node)
    | OpT(op: Options, left: Node, right: Node)

  /** A word of the file: the name of an operation, or what stands for an operation without one. */
  datatype Text = Named(op: Options) | QuestionMark

  datatype Piece = Brace | Word(text: Text) | Quoted(name: string) | Number(numeral: string)

  datatype Token = NumTok(num: int) | NameTok(name: string) | OpTok(op: Options)

  /** The word written for an operation is its name; conjunction and disjunction have none. */
  function GetOpSign(op: Options): Text { if op in {UNKNOWN, AND, OR} then QuestionMark else Named(op) }

  /** The operation a word is read as; the brackets and the separators are not among the words known. */
  function GetOpType(w: Text): Options {
    if w == QuestionMark || w.op in {UNKNOWN, OPEN_BR, CLOSE_BR, TERMINATION_SYM, SEMI_COL} then UNKNOWN else w.op
  }

  predicate IsFuncOp(op: Options) { op == FUNC || op == CALL }

  /** Operations that come back from disk as an operator node. */
  predicate Returns(op: Options) {
    op !in {UNKNOWN, AND, OR, OPEN_BR, CLOSE_BR, TERMINATION_SYM, SEMI_COL, NIL, VOID, TYPE}
  }

  // ----- Writing -----

  function PrintedChild(d: Doubles, t: Node): seq<Piece>
    decreases t, 2
  {
    if t == Null then [Brace, Word(Named(NIL)), Brace] else Printed(d, t)
  }

  function Printed(d: Doubles, t: Node): seq<Piece>
    requires t != Null
    decreases t, 1
  {
    [Brace] + PrintedInside(d, t) + [Brace]
  }

  function PrintedInside(d: Doubles, t: Node): seq<Piece>
    requires t != Null
    decreases t, 0
  {
    match t
    case NumT(v) => [Number(N.Numeral(d.shown(v)))]
    case VarT(n, l, _) => [Quoted(n)] + if l == Null then [] else Printed(d, l)
    case NameT(n, l, _) =>
      if l == Null then [Quoted(n), Brace, Word(Named(NIL)), Brace, Brace, Word(Named(VOID)), Brace]
      else [Quoted(n)] + Printed(d, l) + [Brace, Word(Named(TYPE)), Brace]
    case NameShortT(n, _, _) => [Quoted(n), Brace, Word(Named(NIL)), Brace, Brace, Word(Named(NIL)), Brace]
    case OpT(op, l, r) => [Word(GetOpSign(op))] + PrintedChild(d, l) + PrintedChild(d, r)
  }

  // ----- Reading -----

  /** The tokenizer gets past every piece but a word that does not start with a letter, given that numerals are
      numerals. */
  predicate Passable(p: Piece) { p != Word(QuestionMark) && (p.Number? ==> N.ScanNumber(p.numeral).Some?) }

  predicate Readable(ps: seq<Piece>) { forall p :: p in ps ==> Passable(p) }

  predicate IsAlpha(c: char) { 'a' <= c <= 'z' || 'A' <= c <= 'Z' }

  /** A numeral that starts with a letter is taken for a word, and for an unknown one. */
  function LexedNumeral(d: Doubles, text: string): seq<Token> {
    if text != [] && IsAlpha(text[0]) then [OpTok(UNKNOWN)]
    else match N.ScanNumber(text) case Some(n) => [NumTok(d.nearest(n.0))] case None => []
  }

  function Lexed(d: Doubles, p: Piece): seq<Token> {
    match p
    case Brace => []
    case Word(w) => [OpTok(GetOpType(w))]
    case Quoted(n) => [NameTok(n)]
    case Number(text) => LexedNumeral(d, text)
  }

  function Tokens(d: Doubles, ps: seq<Piece>): seq<Token> {
    if |ps| == 0 then [] else Tokens(d, ps[..|ps| - 1]) + Lexed(d, ps[|ps| - 1])
  }

  /** Reads one tree off the front of the tokens; a name is read as a function's where one is expected. */
  function Read(ts: seq<Token>, isFuncName: bool): (r: (Node, seq<Token>))
    ensures |r.1| <= |ts|
    decreases |ts|
  {
    if |ts| == 0 then (Null, ts)
    else
      match ts[0]
      case NameTok(n) =>
        if isFuncName then
          var param := Read(ts[1..], false);
          var kind := Read(param.1, false);
          (NameT(n, param.0, kind.0), kind.1)
        else (VarT(n, Null, Null), ts[1..])
      case NumTok(v) => (NumT(v), ts[1..])
      case OpTok(op) =>
        if op == TERMINATION_SYM then (Null, ts)
        else if op == NIL || op == VOID || op == TYPE then (Null, ts[1..])
        else
          var l := Read(ts[1..], IsFuncOp(op));
          var r := Read(l.1, false);
          (OpT(op, l.0, r.0), r.1)
  }

  /** The tree that should come back: the one written, with call names read as names. */
  function Expected(t: Node): Node {
    match t
    case Null => Null
    case NumT(_) => t
    case VarT(n, l, r) => VarT(n, Expected(l), Expected(r))
    case NameT(n, l, r) => NameT(n, Expected(l), Expected(r))
    case NameShortT(n, l, r) => NameT(n, Expected(l), Expected(r))
    case OpT(op, l, r) => OpT(op, Expected(l), Expected(r))
  }

  /** A number has at most six significant digits, and is no infinity or NaN without a sign. */
  predicate Survives(d: Doubles, v: int) {
    var s := d.shown(v);
    d.nearest(N.Meaning(s)) == v && (s.Other? ==> s.neg)
  }

  /** Numbers survive; names stand where a function's name is expected and nowhere else, variables nowhere there; variables and
      call names have no children, other names no right one; operations have a word that is read back. */
  predicate Storable(d: Doubles, t: Node, isFuncName: bool)
    requires t != Null
  {
    match t
    case NumT(v) => Survives(d, v)
    case VarT(_, l, r) => !isFuncName && l == Null && r == Null
    case NameT(_, l, r) => isFuncName && r == Null && (l == Null || Storable(d, l, false))
    case NameShortT(_, l, r) => isFuncName && l == Null && r == Null
    case OpT(op, l, r) =>
      Returns(op) && (l == Null || Storable(d, l, IsFuncOp(op))) && (r == Null || Storable(d, r, false))
  }

  // ----- Words and tokens -----

  /** Exactly the words of these operations are read as what was written. */
  lemma WordsReturn(op: Options)
    ensures GetOpType(GetOpSign(op)) == op && GetOpSign(op) != QuestionMark && op !in {NIL, VOID, TYPE} <==> Returns(op)
    ensures GetOpType(Named(NIL)) == NIL && GetOpType(Named(VOID)) == VOID && GetOpType(Named(TYPE)) == TYPE
    ensures GetOpType(GetOpSign(op)) != TERMINATION_SYM
    ensures !Returns(op) && GetOpSign(op) != QuestionMark ==> op in {NIL, VOID, TYPE} || GetOpType(GetOpSign(op)) == UNKNOWN != op
  {
  }

  lemma TokensLast(d: Doubles, ps: seq<Piece>, p: Piece)
    ensures Tokens(d, ps + [p]) == Tokens(d, ps) + Lexed(d, p)
  {
    hide Lexed;
    assert (ps + [p])[..|ps + [p]| - 1] == ps;
  }

  lemma {:induction false} TokensAdd(d: Doubles, a: seq<Piece>, b: seq<Piece>)
    ensures Tokens(d, a + b) == Tokens(d, a) + Tokens(d, b)
  {
    hide Tokens, Lexed;
    NoTokens(d);
    if |b| == 0 {
      assert a + b == a;
    } else {
      var front, p := b[..|b| - 1], b[|b| - 1];
      TokensAdd(d, a, front);
      TokensLast(d, front, p);
      TokensLast(d, a + front, p);
      assert front + [p] == b && (a + front) + [p] == a + b;
    }
  }

  lemma TokensOne(d: Doubles, p: Piece)
    ensures Tokens(d, [p]) == Lexed(d, p)
  {
    assert [p][..0] == [];
    assert Tokens(d, []) == [];
  }

  lemma TokensBraced(d: Doubles, w: Text)
    ensures Tokens(d, [Brace, Word(w), Brace]) == [OpTok(GetOpType(w))]
  {
    hide GetOpType;
    TokensAdd(d, [Brace], [Word(w)]);
    TokensAdd(d, [Brace, Word(w)], [Brace]);
    assert [Brace] + [Word(w)] == [Brace, Word(w)] && [Brace, Word(w)] + [Brace] == [Brace, Word(w), Brace];
    TokensOne(d, Brace);
    TokensOne(d, Word(w));
  }

  /** The tokens of a tree, node by node. */
  lemma TreeTokens(d: Doubles, t: Node)
    requires t != Null
    ensures Tokens(d, Printed(d, t)) == NodeTokens(d, t)
  {
    hide Tokens, GetOpType, GetOpSign;
    TokensAdd(d, [Brace] + PrintedInside(d, t), [Brace]);
    TokensAdd(d, [Brace], PrintedInside(d, t));
    TokensOne(d, Brace);
    InsideTokens(d, t);
  }

  function NodeTokens(d: Doubles, t: Node): seq<Token>
    requires t != Null
  {
    match t
    case NumT(v) => LexedNumeral(d, N.Numeral(d.shown(v)))
    case VarT(n, l, _) => [NameTok(n)] + if l == Null then [] else Tokens(d, Printed(d, l))
    case NameT(n, l, _) =>
      [NameTok(n)] + if l == Null then [OpTok(NIL), OpTok(VOID)] else Tokens(d, Printed(d, l)) + [OpTok(TYPE)]
    case NameShortT(n, _, _) => [NameTok(n), OpTok(NIL), OpTok(NIL)]
    case OpT(op, l, r) => [OpTok(GetOpType(GetOpSign(op)))] + ChildTokens(d, l) + ChildTokens(d, r)
  }

  function ChildTokens(d: Doubles, t: Node): seq<Token> { if t == Null then [OpTok(NIL)] else Tokens(d, Printed(d, t)) }

  lemma InsideTokens(d: Doubles, t: Node)
    requires t != Null
    ensures Tokens(d, PrintedInside(d, t)) == NodeTokens(d, t)
  {
    hide Tokens, GetOpSign, Printed, GetOpType;
    WordsReturn(NIL);
    TokensBraced(d, Named(NIL));
    TokensBraced(d, Named(VOID));
    TokensBraced(d, Named(TYPE));
    var nil := [Brace, Word(Named(NIL)), Brace];
    match t
    case NumT(v) => TokensOne(d, Number(N.Numeral(d.shown(v))));
    case VarT(n, l, _) =>
      TokensOne(d, Quoted(n));
      TokensAdd(d, [Quoted(n)], if l == Null then [] else Printed(d, l));
      NoTokens(d);
    case NameT(n, l, _) =>
      TokensOne(d, Quoted(n));
      if l == Null {
        ThreeParts(d, [Quoted(n)], nil, [Brace, Word(Named(VOID)), Brace]);
        assert PrintedInside(d, t) == [Quoted(n)] + nil + [Brace, Word(Named(VOID)), Brace];
      } else {
        ThreeParts(d, [Quoted(n)], Printed(d, l), [Brace, Word(Named(TYPE)), Brace]);
      }
    case NameShortT(n, _, _) =>
      TokensOne(d, Quoted(n));
      ThreeParts(d, [Quoted(n)], nil, nil);
      assert PrintedInside(d, t) == [Quoted(n)] + nil + nil;
    case OpT(op, l, r) =>
      TokensOne(d, Word(GetOpSign(op)));
      ThreeParts(d, [Word(GetOpSign(op))], PrintedChild(d, l), PrintedChild(d, r));
  }

  lemma NoTokens(d: Doubles)
    ensures Tokens(d, []) == []
  {
  }

  lemma ThreeParts(d: Doubles, a: seq<Piece>, b: seq<Piece>, c: seq<Piece>)
    ensures Tokens(d, a + b + c) == Tokens(d, a) + Tokens(d, b) + Tokens(d, c)
  {
    hide Tokens;
    TokensAdd(d, a + b, c);
    TokensAdd(d, a, b);
  }

  lemma NumeralScans(s: N.Printed)
    ensures N.ScanNumber(N.Numeral(s)) == Some((N.Meaning(s), []))
  {
    hide N.ScanNumber, N.Numeral, N.Meaning;
    N.NumeralRead(s, []);
    assert N.Numeral(s) + [] == N.Numeral(s);
  }

  /** What the tokenizer makes of a printed number. */
  lemma NumeralLexed(d: Doubles, v: int)
    ensures var s := d.shown(v);
      LexedNumeral(d, N.Numeral(s)) == if s.Other? && !s.neg then [OpTok(UNKNOWN)] else [NumTok(d.nearest(N.Meaning(s)))]
  {
    hide N.ScanNumber, N.Unsigned, N.Meaning;
    var s := d.shown(v);
    NumeralScans(s);
    if s.Finite? { N.UnsignedStart(s.digits, s.exp); }
  }

  // ----- One step of the reader -----

  lemma ReadNull(op: Options, rest: seq<Token>, isFuncName: bool)
    requires op == NIL || op == VOID || op == TYPE
    ensures Read([OpTok(op)] + rest, isFuncName) == (Null, rest)
  {
  }

  lemma ReadEnd(rest: seq<Token>, isFuncName: bool)
    ensures Read([OpTok(TERMINATION_SYM)] + rest, isFuncName) == (Null, [OpTok(TERMINATION_SYM)] + rest)
  {
  }

  lemma ReadName(n: string, rest: seq<Token>, isFuncName: bool)
    ensures !isFuncName ==> Read([NameTok(n)] + rest, isFuncName) == (VarT(n, Null, Null), rest)
    ensures var param := Read(rest, false); var kind := Read(param.1, false);
      isFuncName ==> Read([NameTok(n)] + rest, isFuncName) == (NameT(n, param.0, kind.0), kind.1)
  {
    assert ([NameTok(n)] + rest)[1..] == rest;
  }

  lemma ReadOp(op: Options, rest: seq<Token>, isFuncName: bool)
    requires op !in {TERMINATION_SYM, NIL, VOID, TYPE}
    ensures var l := Read(rest, IsFuncOp(op)); var r := Read(l.1, false);
      Read([OpTok(op)] + rest, isFuncName) == (OpT(op, l.0, r.0), r.1)
  {
    assert ([OpTok(op)] + rest)[1..] == rest;
  }

  lemma Regroup(a: seq<Token>, b: seq<Token>, c: seq<Token>, d: seq<Token>)
    ensures a + b + c + d == a + (b + (c + d))
  {
  }

  // ----- Trees the tokenizer gets through -----

  predicate AllWords(t: Node) {
    match t
    case Null => true
    case NumT(_) => true
    case VarT(_, l, _) => AllWords(l)
    case NameT(_, l, _) => AllWords(l)
    case NameShortT(_, _, _) => true
    case OpT(op, l, r) => GetOpSign(op) != QuestionMark && AllWords(l) && AllWords(r)
  }

  lemma {:induction false} ReadableIff(d: Doubles, t: Node)
    ensures t != Null ==> (Readable(Printed(d, t)) <==> AllWords(t))
    ensures Readable(PrintedChild(d, t)) <==> AllWords(t)
    decreases t, 1
  {
    hide Readable, GetOpSign;
    if t != Null {
      ReadableAdd([Brace] + PrintedInside(d, t), [Brace]);
      ReadableAdd([Brace], PrintedInside(d, t));
      ReadableInside(d, t);
    }
    ReadableFixed();
  }

  lemma {:induction false} ReadableInside(d: Doubles, t: Node)
    requires t != Null
    ensures Readable(PrintedInside(d, t)) <==> AllWords(t)
    decreases t, 0
  {
    hide Readable, GetOpSign;
    ReadableFixed();
    match t
    case NumT(v) =>
      NumeralScans(d.shown(v));
      ReadableOne(Number(N.Numeral(d.shown(v))));
    case VarT(n, l, _) =>
      ReadableOne(Quoted(n));
      ReadableIff(d, l);
      ReadableAdd([Quoted(n)], if l == Null then [] else Printed(d, l));
    case NameT(n, l, _) =>
      ReadableOne(Quoted(n));
      if l == Null {
        ReadableName(n, Named(VOID));
      } else {
        ReadableIff(d, l);
        ReadableAdd([Quoted(n)] + Printed(d, l), [Brace, Word(Named(TYPE)), Brace]);
        ReadableAdd([Quoted(n)], Printed(d, l));
      }
    case NameShortT(n, _, _) => ReadableName(n, Named(NIL));
    case OpT(op, l, r) =>
      ReadableOne(Word(GetOpSign(op)));
      ReadableIff(d, l);
      ReadableIff(d, r);
      ReadableAdd([Word(GetOpSign(op))] + PrintedChild(d, l), PrintedChild(d, r));
      ReadableAdd([Word(GetOpSign(op))], PrintedChild(d, l));
  }

  lemma ReadableAdd(a: seq<Piece>, b: seq<Piece>)
    ensures Readable(a + b) <==> Readable(a) && Readable(b)
  {
    if Readable(a + b) {
      forall p | p in a || p in b ensures Passable(p) { assert p in a + b; }
    }
  }

  lemma ReadableOne(p: Piece)
    ensures Readable([p]) <==> Passable(p)
  {
    assert p in [p];
  }

  lemma ReadableName(n: string, w: Text)
    requires w != QuestionMark
    ensures Readable([Quoted(n), Brace, Word(Named(NIL)), Brace, Brace, Word(w), Brace])
  {
  }

  lemma ReadableFixed()
    ensures Readable([]) && Readable([Brace])
    ensures Readable([Brace, Word(Named(NIL)), Brace]) && Readable([Brace, Word(Named(TYPE)), Brace])
  {
  }

  // ----- Storable trees come back, and no others -----

  lemma {:induction false} ReadsBack(d: Doubles, t: Node, isFuncName: bool, rest: seq<Token>)
    requires t != Null && Storable(d, t, isFuncName)
    ensures Read(Tokens(d, Printed(d, t)) + rest, isFuncName) == (Expected(t), rest) && AllWords(t)
    decreases t, 0
  {
    hide Read, Tokens, Printed, GetOpType;
    TreeTokens(d, t);
    match t
    case NumT(v) =>
      NumeralLexed(d, v);
      ReadNumber(v, rest, isFuncName);
    case VarT(n, l, r) =>
      ReadName(n, rest, isFuncName);
      assert NodeTokens(d, t) + rest == [NameTok(n)] + rest;
    case NameT(n, l, r) =>
      var after := if l == Null then VOID else TYPE;
      ReadsBackChild(d, l, false, [OpTok(after)] + rest);
      ReadFuncName(d, n, l, after, rest);
      assert NodeTokens(d, t) + rest == [NameTok(n)] + (ChildTokens(d, l) + ([OpTok(after)] + rest));
    case NameShortT(n, l, r) =>
      ReadNull(NIL, [OpTok(NIL)] + rest, false);
      ReadFuncName(d, n, Null, NIL, rest);
      assert NodeTokens(d, t) + rest == [NameTok(n)] + (ChildTokens(d, Null) + ([OpTok(NIL)] + rest));
    case OpT(op, l, r) =>
      WordsReturn(op);
      ReadsBackChild(d, r, false, rest);
      ReadsBackChild(d, l, IsFuncOp(op), ChildTokens(d, r) + rest);
      ReadOp(op, ChildTokens(d, l) + (ChildTokens(d, r) + rest), isFuncName);
      Regroup([OpTok(op)], ChildTokens(d, l), ChildTokens(d, r), rest);
  }

  /** A function's name, its parameters and the word that closes it. */
  lemma ReadFuncName(d: Doubles, n: string, l: Node, after: Options, rest: seq<Token>)
    requires after == NIL || after == VOID || after == TYPE
    requires Read(ChildTokens(d, l) + ([OpTok(after)] + rest), false).1 == [OpTok(after)] + rest
    ensures Read([NameTok(n)] + (ChildTokens(d, l) + ([OpTok(after)] + rest)), true)
      == (NameT(n, Read(ChildTokens(d, l) + ([OpTok(after)] + rest), false).0, Null), rest)
  {
    hide Read, ChildTokens;
    ReadName(n, ChildTokens(d, l) + ([OpTok(after)] + rest), true);
    ReadNull(after, rest, false);
  }

  lemma ReadNumber(v: int, rest: seq<Token>, isFuncName: bool)
    ensures Read([NumTok(v)] + rest, isFuncName) == (NumT(v), rest)
  {
  }

  lemma {:induction false} ReadsBackChild(d: Doubles, t: Node, isFuncName: bool, rest: seq<Token>)
    requires t == Null || Storable(d, t, isFuncName)
    ensures Read(ChildTokens(d, t) + rest, isFuncName) == (Expected(t), rest) && AllWords(t)
    decreases t, 1
  {
    hide Read, Tokens;
    if t == Null { ReadNull(NIL, rest, isFuncName); } else { ReadsBack(d, t, isFuncName, rest); }
  }

  /** What cannot be stored is read as another tree, whatever follows it, or stops the tokenizer. */
  lemma {:induction false} Misread(d: Doubles, t: Node, isFuncName: bool, rest: seq<Token>)
    requires t != Null && !Storable(d, t, isFuncName) && AllWords(t)
    ensures Read(Tokens(d, Printed(d, t)) + rest, isFuncName).0 != Expected(t)
    decreases t, 1
  {
    hide Read, Tokens, Printed, GetOpType, LexedNumeral;
    TreeTokens(d, t);
    match t
    case NumT(v) => MisreadNumber(d, v, isFuncName, rest);
    case VarT(n, l, r) =>
      var more := (if l == Null then [] else Tokens(d, Printed(d, l))) + rest;
      assert NodeTokens(d, t) + rest == [NameTok(n)] + more;
      ReadName(n, more, isFuncName);
      NotNull(l);
      NotNull(r);
    case NameT(n, l, r) => MisreadName(d, t, isFuncName, rest);
    case NameShortT(n, l, r) =>
      assert NodeTokens(d, t) + rest == [NameTok(n)] + (ChildTokens(d, Null) + ([OpTok(NIL)] + rest));
      ReadName(n, ChildTokens(d, Null) + ([OpTok(NIL)] + rest), isFuncName);
      ReadNull(NIL, [OpTok(NIL)] + rest, false);
      ReadFuncName(d, n, Null, NIL, rest);
      NotNull(l);
      NotNull(r);
    case OpT(op, l, r) => MisreadOp(d, t, isFuncName, rest);
  }

  lemma MisreadNumber(d: Doubles, v: int, isFuncName: bool, rest: seq<Token>)
    requires !Survives(d, v)
    ensures Read(LexedNumeral(d, N.Numeral(d.shown(v))) + rest, isFuncName).0 != NumT(v)
  {
    hide Read, LexedNumeral;
    NumeralLexed(d, v);
    if d.shown(v).Other? && !d.shown(v).neg {
      ReadOp(UNKNOWN, rest, isFuncName);
    } else {
      ReadNumber(d.nearest(N.Meaning(d.shown(v))), rest, isFuncName);
    }
  }

  lemma {:induction false} MisreadName(d: Doubles, t: Node, isFuncName: bool, rest: seq<Token>)
    requires t.NameT? && !Storable(d, t, isFuncName) && AllWords(t)
    ensures Read(NodeTokens(d, t) + rest, isFuncName).0 != Expected(t)
    decreases t, 0
  {
    hide Read, Tokens, Printed, GetOpType;
    var n, l, r := t.name, t.left, t.right;
    var after := if l == Null then VOID else TYPE;
    assert NodeTokens(d, t) + rest == [NameTok(n)] + (ChildTokens(d, l) + ([OpTok(after)] + rest));
    ReadName(n, ChildTokens(d, l) + ([OpTok(after)] + rest), isFuncName);
    if l != Null && !Storable(d, l, false) {
      Misread(d, l, false, [OpTok(after)] + rest);
    } else if isFuncName {
      ReadsBackChild(d, l, false, [OpTok(after)] + rest);
      ReadFuncName(d, n, l, after, rest);
      NotNull(r);
    }
  }

  lemma {:induction false} MisreadOp(d: Doubles, t: Node, isFuncName: bool, rest: seq<Token>)
    requires t.OpT? && !Storable(d, t, isFuncName) && AllWords(t)
    ensures Read(NodeTokens(d, t) + rest, isFuncName).0 != Expected(t)
    decreases t, 0
  {
    hide Read, Tokens, Printed, GetOpSign, GetOpType;
    var op, l, r := t.op, t.left, t.right;
    var read := GetOpType(GetOpSign(op));
    WordsReturn(op);
    if read == NIL || read == VOID || read == TYPE {
      assert NodeTokens(d, t) + rest == [OpTok(read)] + (ChildTokens(d, l) + ChildTokens(d, r) + rest);
      ReadNull(read, ChildTokens(d, l) + ChildTokens(d, r) + rest, isFuncName);
    } else {
      Regroup([OpTok(read)], ChildTokens(d, l), ChildTokens(d, r), rest);
      ReadOp(read, ChildTokens(d, l) + (ChildTokens(d, r) + rest), isFuncName);
      if read == op {
        if l != Null && !Storable(d, l, IsFuncOp(op)) {
          Misread(d, l, IsFuncOp(op), ChildTokens(d, r) + rest);
        } else {
          ReadsBackChild(d, l, IsFuncOp(op), ChildTokens(d, r) + rest);
          Misread(d, r, false, rest);
        }
      }
    }
  }

  lemma NotNull(t: Node)
    ensures Expected(t) == Null <==> t == Null
  {
  }

  /** A tree comes back from disk, with nothing left over, exactly when it can be stored. */
  lemma DiskRoundTrip(d: Doubles, t: Node)
    requires t != Null
    ensures Storable(d, t, false) <==>
      Readable(Printed(d, t)) && Read(Tokens(d, Printed(d, t)) + [OpTok(TERMINATION_SYM)], false) == (Expected(t), [OpTok(TERMINATION_SYM)])
  {
    hide Read, Tokens, Storable, Printed, Readable;
    ReadableIff(d, t);
    if Storable(d, t, false) {
      ReadsBack(d, t, false, [OpTok(TERMINATION_SYM)]);
    } else if AllWords(t) {
      Misread(d, t, false, [OpTok(TERMINATION_SYM)]);
    }
  }

  // ----- The writer and the reader as they run -----

  class TreeWriter {
    const d: Doubles
    var outFile: seq<Piece>

    constructor (d: Doubles)
      ensures this.d == d && outFile == []
    {
      this.d := d;
      outFile := [];
    }

    method Print(ps: seq<Piece>)
      modifies this
      ensures outFile == old(outFile) + ps
    {
      outFile := outFile + ps;
    }

    method RecPrintNode(t: Node)
      requires t != Null
      modifies this
      ensures outFile == old(outFile) + Printed(d, t)
      decreases t, 1
    {
      hide PrintedInside;
      ghost var before := outFile;
      Print([Brace]);
      RecPrintInside(t);
      Print([Brace]);
      Joined(before, [Brace], PrintedInside(d, t), [Brace]);
    }

    method RecPrintInside(t: Node)
      requires t != Null
      modifies this
      ensures outFile == old(outFile) + PrintedInside(d, t)
      decreases t, 0
    {
      hide Printed, GetOpSign;
      ghost var before := outFile;
      match t {
        case NumT(v) => Print([Number(N.Numeral(d.shown(v)))]);
        case NameT(n, l, _) =>
          if l != Null {
            Print([Quoted(n)]);
            RecPrintNode(l);
            Print([Brace, Word(Named(TYPE)), Brace]);
            Joined(before, [Quoted(n)], Printed(d, l), [Brace, Word(Named(TYPE)), Brace]);
          } else {
            Print([Quoted(n), Brace, Word(Named(NIL)), Brace, Brace, Word(Named(VOID)), Brace]);
          }
        case NameShortT(n, _, _) =>
          Print([Quoted(n), Brace, Word(Named(NIL)), Brace, Brace, Word(Named(NIL)), Brace]);
        case VarT(n, l, _) =>
          Print([Quoted(n)]);
          if l != Null { RecPrintNode(l); }
          Joined(before, [Quoted(n)], if l == Null then [] else Printed(d, l), []);
        case OpT(op, l, r) =>
          Print([Word(GetOpSign(op))]);
          if l != Null { RecPrintNode(l); } else { Print([Brace, Word(Named(NIL)), Brace]); }
          if r != Null { RecPrintNode(r); } else { Print([Brace, Word(Named(NIL)), Brace]); }
          Joined(before, [Word(GetOpSign(op))], PrintedChild(d, l), PrintedChild(d, r));
      }
    }
  }

  lemma Joined(s: seq<Piece>, a: seq<Piece>, b: seq<Piece>, c: seq<Piece>)
    ensures s + a + b + c == s + (a + b + c)
    ensures c == [] ==> s + a + b == s + (a + b)
  {
  }

  class TreeReader {
    const d: Doubles
    var tokenArray: seq<Token>
    var curTokenId: nat

    constructor (d: Doubles)
      ensures this.d == d && tokenArray == [] && curTokenId == 0
    {
      this.d := d;
      tokenArray, curTokenId := [], 0;
    }

    method FillTokensArray(input: seq<Piece>)
      requires Readable(input) && tokenArray == []
      modifies this`tokenArray
      ensures tokenArray == Tokens(d, input) + [OpTok(TERMINATION_SYM)]
    {
      hide GetOpType;
      var i := 0;
      while i < |input|
        invariant 0 <= i <= |input| && tokenArray == Tokens(d, input[..i])
      {
        assert input[..i + 1][..i] == input[..i];
        match input[i] {
          case Word(w) => tokenArray := tokenArray + [OpTok(GetOpType(w))];
          case Quoted(n) => tokenArray := tokenArray + [NameTok(n)];
          case Number(text) =>
            if text != [] && IsAlpha(text[0]) {
              tokenArray := tokenArray + [OpTok(UNKNOWN)];
            } else {
              assert Passable(input[i]);
              tokenArray := tokenArray + [NumTok(d.nearest(N.ScanNumber(text).value.0))];
            }
          case Brace =>
        }
        i := i + 1;
      }
      assert input[..i] == input;
      tokenArray := tokenArray + [OpTok(TERMINATION_SYM)];
    }

    /** The tokens not read yet, and that there are some. */
    ghost function Ahead(): seq<Token>
      requires curTokenId <= |tokenArray|
      reads this
    {
      tokenArray[curTokenId..]
    }

    method NextToken()
      requires curTokenId < |tokenArray|
      modifies this`curTokenId
      ensures curTokenId == old(curTokenId) + 1 && old(Ahead()) == [tokenArray[old(curTokenId)]] + Ahead()
    {
      curTokenId := curTokenId + 1;
    }

    predicate Ended()
      reads this
    {
      curTokenId < |tokenArray| && tokenArray[|tokenArray| - 1] == OpTok(TERMINATION_SYM)
    }

    method RecGetChild(isFuncName: bool) returns (t: Node)
      requires Ended()
      modifies this`curTokenId
      ensures old(curTokenId) <= curTokenId && Ended() && Read(old(Ahead()), isFuncName) == (t, Ahead())
      decreases |tokenArray| - curTokenId, 2
    {
      hide Read;
      var token := tokenArray[curTokenId];
      assert Ahead() == [token] + tokenArray[curTokenId + 1..];
      match token {
        case NameTok(n) =>
          ReadName(n, tokenArray[curTokenId + 1..], isFuncName);
          NextToken();
          if isFuncName {
            var param, kind := RecGetTwo(false);
            t := NameT(n, param, kind);
          } else {
            t := VarT(n, Null, Null);
          }
        case NumTok(v) =>
          ReadNumber(v, tokenArray[curTokenId + 1..], isFuncName);
          NextToken();
          t := NumT(v);
        case OpTok(op) =>
          t := RecGetWord(op, isFuncName);
      }
    }

    /** An operation, or a word that stands for no node. */
    method RecGetWord(op: Options, ghost isFuncName: bool) returns (t: Node)
      requires Ended() && tokenArray[curTokenId] == OpTok(op)
      modifies this`curTokenId
      ensures old(curTokenId) <= curTokenId && Ended() && Read(old(Ahead()), isFuncName) == (t, Ahead())
      decreases |tokenArray| - curTokenId, 1
    {
      hide Read, IsFuncOp;
      assert Ahead() == [OpTok(op)] + tokenArray[curTokenId + 1..];
      if op == TERMINATION_SYM {
        ReadEnd(tokenArray[curTokenId + 1..], isFuncName);
        t := Null;
      } else if op == NIL || op == VOID || op == TYPE {
        ReadNull(op, tokenArray[curTokenId + 1..], isFuncName);
        NextToken();
        t := Null;
      } else {
        t := RecGetOp(op, isFuncName);
      }
    }

    /** An operation with its operands. */
    method RecGetOp(op: Options, ghost isFuncName: bool) returns (t: Node)
      requires Ended() && tokenArray[curTokenId] == OpTok(op) && op !in {TERMINATION_SYM, NIL, VOID, TYPE}
      modifies this`curTokenId
      ensures old(curTokenId) <= curTokenId && Ended() && Read(old(Ahead()), isFuncName) == (t, Ahead())
      decreases |tokenArray| - curTokenId, 0
    {
      hide Read;
      ghost var rest := tokenArray[curTokenId + 1..];
      ReadOp(op, rest, isFuncName);
      NextToken();
      var left, right := RecGetTwo(op == FUNC || op == CALL);
      t := OpT(op, left, right);
    }

    /** Two trees, one after the other. */
    method RecGetTwo(isFuncName: bool) returns (first: Node, second: Node)
      requires Ended()
      modifies this`curTokenId
      ensures old(curTokenId) <= curTokenId && Ended()
      ensures var l := Read(old(Ahead()), isFuncName); Read(l.1, false) == (second, Ahead()) && first == l.0
      decreases |tokenArray| - curTokenId, 3
    {
      hide Read;
      first := RecGetChild(isFuncName);
      second := RecGetChild(false);
    }

    /** The tree in a file: for one that was written, the tree itself, if it could be stored. */
    method GetGrammar(input: seq<Piece>, ghost written: Node) returns (t: Node)
      requires Readable(input) && tokenArray == [] && curTokenId == 0
      modifies this
      ensures written != Null && input == Printed(d, written) ==> (Storable(d, written, false) <==> t == Expected(written) && curTokenId == |tokenArray| - 1)
    {
      hide Read, Tokens, Printed, Storable, Readable;
      FillTokensArray(input);
      assert tokenArray[0..] == tokenArray;
      t := RecGetChild(false);
      if written != Null && input == Printed(d, written) {
        DiskRoundTrip(d, written);
        assert tokenArray[|tokenArray| - 1..] == [OpTok(TERMINATION_SYM)];
      }
    }
  }

  // ----- The file, piece by piece -----

  lemma LeafListing(d: Doubles, v: int, x: string)
    ensures Printed(d, NumT(v)) == [Brace, Number(N.Numeral(d.shown(v))), Brace]
    ensures Printed(d, VarT(x, Null, Null)) == [Brace, Quoted(x), Brace]
    ensures PrintedChild(d, Null) == [Brace, Word(Named(NIL)), Brace]
    ensures PrintedChild(d, NumT(v)) == Printed(d, NumT(v))
    ensures PrintedChild(d, VarT(x, Null, Null)) == Printed(d, VarT(x, Null, Null))
  {
  }

  /** Prefix order: the operation, then the left and the right child, each in braces, `nil` for none. */
  lemma DiskListing(d: Doubles, op: Options, v: int, x: string)
    requires op !in {UNKNOWN, AND, OR}
    ensures Printed(d, OpT(op, NumT(v), VarT(x, Null, Null))) ==
      [Brace] + ([Word(Named(op))] + [Brace, Number(N.Numeral(d.shown(v))), Brace] + [Brace, Quoted(x), Brace]) + [Brace]
    ensures Printed(d, OpT(op, VarT(x, Null, Null), Null)) ==
      [Brace] + ([Word(Named(op))] + [Brace, Quoted(x), Brace] + [Brace, Word(Named(NIL)), Brace]) + [Brace]
  {
    hide PrintedChild;
    LeafListing(d, v, x);
    assert PrintedInside(d, OpT(op, NumT(v), VarT(x, Null, Null))) ==
      [Word(Named(op))] + PrintedChild(d, NumT(v)) + PrintedChild(d, VarT(x, Null, Null));
    assert PrintedInside(d, OpT(op, VarT(x, Null, Null), Null)) ==
      [Word(Named(op))] + PrintedChild(d, VarT(x, Null, Null)) + PrintedChild(d, Null);
  }

  /** A name is followed by its parameter and by `type`; one without is followed by `nil` and `void`, at a call by two `nil`. */
  lemma NameListing(d: Doubles, x: string, y: string)
    ensures Printed(d, NameT(x, VarT(y, Null, Null), Null)) ==
      [Brace] + ([Quoted(x)] + [Brace, Quoted(y), Brace] + [Brace, Word(Named(TYPE)), Brace]) + [Brace]
    ensures Printed(d, NameT(x, Null, Null)) ==
      [Brace] + [Quoted(x), Brace, Word(Named(NIL)), Brace, Brace, Word(Named(VOID)), Brace] + [Brace]
    ensures Printed(d, NameShortT(x, Null, Null)) ==
      [Brace] + [Quoted(x), Brace, Word(Named(NIL)), Brace, Brace, Word(Named(NIL)), Brace] + [Brace]
  {
    LeafListing(d, 0, y);
  }
}
