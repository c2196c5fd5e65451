/** The text behind `push` and `pop`, and what the assembler makes of it. */
module LangOperands {
  import opened Wrappers
  import opened LangNumerals
  import opened LangSyntax

  // ----- The scanning -----

  /** The length of what `%s` takes. */
  function WordLength(s: string): (n: nat)
    ensures n <= |s|
  {
    if s == [] || IsSpace(s[0]) then 0 else 1 + WordLength(s[1..])
  }

  /** The length of what `%[^+ ]` takes. */
  function NameLength(s: string): (n: nat)
    ensures n <= |s|
  {
    if s == [] || s[0] == '+' || s[0] == ' ' then 0 else 1 + NameLength(s[1..])
  }

  lemma SkipShortens(s: string)
    ensures |SkipSpaces(s)| <= |s|
  {
  }

  /** A leading bracket and the character that ends the word behind it become spaces. */
  function HandleRam(text: string): (bool, string) {
    if text == [] || text[0] != '[' then (false, text)
    else
      SkipShortens(text[1..]);
      var word := SkipSpaces(text[1..]);
      var n := WordLength(word);
      var end := |text| - |word| + n;
      (true, if n == 0 then [' '] + text[1..] else [' '] + text[1..end - 1] + [' '] + text[end..])
  }

  /** `%lg+%s` with both conversions made. */
  function NumberPlusName(line: string): Option<(Number, string)> {
    match ScanNumber(line)
    case None => None
    case Some((n, rest)) =>
      if rest == [] || rest[0] != '+' then None
      else
        var t := SkipSpaces(rest[1..]);
        if WordLength(t) == 0 then None else Some((n, t[..WordLength(t)]))
  }

  /** ` %[^+ ] + %lg` with both conversions made. */
  function NamePlusNumber(line: string): Option<(Number, string)> {
    var t := SkipSpaces(line);
    var k := NameLength(t);
    var u := SkipSpaces(t[k..]);
    if k == 0 || u == [] || u[0] != '+' then None
    else
      match ScanNumber(u[1..])
      case None => None
      case Some((n, _)) => Some((n, t[..k]))
  }

  /** `%lg`; the end of the line counts as success and leaves the zero the variable started with. */
  function JustNumber(line: string): Option<Number> {
    if SkipSpaces(line) == [] then Some(Decimal(false, 0, 0))
    else match ScanNumber(line) case None => None case Some((n, _)) => Some(n)
  }

  /** `rax`, `rbx`, ... by the letter; everything else is register 0. */
  function GetRegNum(reg: string): Byte {
    if |reg| > 2 && reg[0] == 'r' && reg[2] == 'x' then (reg[1] as int - 'a' as int) % 0x100 else 0
  }

  /** The operand a text stands for. */
  function Parse(a: Arith, text: string): Operand {
    var (mem, line) := HandleRam(text);
    var sum := if NumberPlusName(line).Some? then NumberPlusName(line) else NamePlusNumber(line);
    if sum.Some? then Sum(mem, a.nearest(sum.value.0), GetRegNum(sum.value.1))
    else match JustNumber(line) case Some(n) => Imm(mem, a.nearest(n)) case None => Reg(mem, GetRegNum(line))
  }

  // ----- The texts the back end prints -----

  /** `%lg` */
  function Constant(a: Arith, v: Elem): string { Numeral(a.shown(v)) }

  /** `[%d+rax]` */
  function Slot(d: nat): string { ['['] + Digits(d) + "+rax]" }

  const RCX := "rcx"
  const RCX_SPACE := "rcx "

  /** A number from a million on is printed with `e+`. */
  predicate Large(s: Shown) { s.Finite? && s.exp >= 6 }

  lemma LeadingSpace(t: string)
    ensures ScanNumber([' '] + t) == ScanNumber(t) && SkipSpaces([' '] + t) == SkipSpaces(t)
  {
    hide ScanMagnitude;
    assert ([' '] + t)[1..] == t;
  }

  lemma {:induction false} WholeWord(w: string, rest: string)
    requires (forall k :: 0 <= k < |w| ==> !IsSpace(w[k])) && (rest == [] || IsSpace(rest[0]))
    ensures WordLength(w + rest) == |w|
  {
    if w == [] {
      assert w + rest == rest;
    } else {
      assert (w + rest)[1..] == w[1..] + rest;
      WholeWord(w[1..], rest);
    }
  }

  lemma BracketsDropped(w: string)
    requires w != [] && (forall k :: 0 <= k < |w| ==> !IsSpace(w[k]))
    ensures HandleRam(['['] + w + [']']) == (true, [' '] + w + [' '])
  {
    var text := ['['] + w + [']'];
    assert text[1..] == w + [']'] && SkipSpaces(w + [']']) == w + [']'];
    WholeWord(w + [']'], []);
    assert w + [']'] + [] == w + [']'] && text[1..|text| - 1] == w && text[|text|..] == [];
    assert [' '] + w + [' '] + [] == [' '] + w + [' '];
  }

  /** The text of a slot is the address of the slot: its number plus rax. */
  lemma SlotParsed(a: Arith, d: nat)
    requires Sane(a) && d < INT_LIMIT
    ensures Parse(a, Slot(d)) == Sum(true, a.ofInt(d), 0)
  {
    hide Sane, ScanNumber, SkipSpaces, NamePlusNumber, JustNumber, Lowest, Digits, Value;
    var w := Digits(d) + "+rax";
    assert Slot(d) == ['['] + w + [']'];
    BracketsDropped(w);
    var line := [' '] + w + [' '];
    assert line == [' '] + (Digits(d) + "+rax ");
    LeadingSpace(Digits(d) + "+rax ");
    DigitsRead(Digits(d), "+rax ");
    assert "+rax "[1..] == "rax" + " ";
    RaxRead();
    SlotNumber(a, d);
  }

  lemma RaxRead()
    ensures SkipSpaces("rax ") == "rax " && WordLength("rax ") == 3 && GetRegNum("rax ") == 0 && "rax "[..3] == "rax"
    ensures GetRegNum("rax") == 0
  {
    WholeWord("rax", " ");
    assert "rax" + " " == "rax ";
  }

  lemma SlotNumber(a: Arith, d: nat)
    requires Sane(a) && d < INT_LIMIT
    ensures a.nearest(Lowest(false, d, 0)) == a.ofInt(d)
  {
    hide Lowest;
  }

  /** A register by its name, with or without a space behind it. */
  lemma RegisterParsed(a: Arith, c: char, space: bool)
    requires 'a' <= c <= 'z'
    ensures Parse(a, ['r', c, 'x'] + if space then [' '] else []) == Reg(false, c as int - 'a' as int)
  {
    hide ScanDecimal;
    var line := ['r', c, 'x'] + if space then [' '] else [];
    NotANumber(line);
    NameOf(c, space);
    assert line[3..] == if space then [' '] else [];
    assert NamePlusNumber(line) == None by {
      assert SkipSpaces([' ']) == SkipSpaces([' '][1..]) && [' '][1..] == [] && SkipSpaces([]) == [];
    }
  }

  lemma NameOf(c: char, space: bool)
    requires 'a' <= c <= 'z'
    ensures NameLength(['r', c, 'x'] + if space then [' '] else []) == 3
  {
    var s := if space then [' '] else [];
    assert (['r', c, 'x'] + s)[1..] == [c, 'x'] + s && ([c, 'x'] + s)[1..] == ['x'] + s && (['x'] + s)[1..] == s;
    assert NameLength(s) == 0 && NameLength(['x'] + s) == 1 && NameLength([c, 'x'] + s) == 2;
  }

  lemma NotANumber(line: string)
    requires line != [] && line[0] == 'r'
    ensures ScanNumber(line) == None && SkipSpaces(line) == line
  {
    assert "inf"[0] == 'i' && "nan"[0] == 'n';
  }

  // ----- Printed numbers -----

  /** Nothing the second pattern stops at, and no bracket. */
  predicate Clean(s: string) { forall k :: 0 <= k < |s| ==> s[k] != '+' && s[k] != ' ' && s[k] != '[' }

  lemma {:induction false} NameWhole(s: string, rest: string)
    requires Clean(s) && (rest == [] || rest[0] == '+')
    ensures NameLength(s + rest) == |s| && (s + rest)[..|s|] == s && (s + rest)[|s|..] == rest
  {
    if s == [] {
      assert s + rest == rest;
    } else {
      assert (s + rest)[1..] == s[1..] + rest;
      NameWhole(s[1..], rest);
    }
  }

  lemma StripClean(ds: string)
    requires AllDigits(ds)
    ensures AllDigits(Strip(ds))
  {
  }

  /** A number from a million on is the text up to its `+`, and the digits of its exponent. */
  lemma LargeSplit(s: Printed) returns (front: string)
    requires Large(s)
    ensures Clean(front) && front != [] && front[0] != 'r' && !IsSpace(front[0])
    ensures Numeral(s) == front + (['+'] + ExponentDigits(s.exp))
  {
    hide ExponentDigits, Mantissa, Clean;
    var m := LargeMantissa(s.digits);
    front := Sign(s.neg) + m + ['e'];
    SignClean(s.neg, m);
    assert Numeral(s) == Sign(s.neg) + (m + Exponent(s.exp));
    assert Exponent(s.exp) == ['e'] + (['+'] + ExponentDigits(s.exp));
  }

  lemma SignClean(neg: bool, m: string)
    requires Clean(m) && m != [] && IsDigit(m[0])
    ensures var front := Sign(neg) + m + ['e'];
      Clean(front) && front[0] != 'r' && !IsSpace(front[0])
  {
  }

  lemma LargeMantissa(d: nat) returns (m: string)
    requires d < 1000000
    ensures m == Mantissa(Six(d)[..1], Strip(Six(d)[1..])) && Clean(m) && m != [] && IsDigit(m[0])
  {
    hide Strip, Six;
    var ds := Six(d);
    StripClean(ds[1..]);
    m := Mantissa(ds[..1], Strip(ds[1..]));
    assert IsDigit(ds[0]);
  }

  /** Other numbers are printed without one. */
  lemma SmallClean(s: Printed)
    requires !Large(s)
    ensures Clean(Numeral(s)) && Numeral(s) != [] && !IsSpace(Numeral(s)[0])
  {
    hide Strip, ExponentDigits, Six, Zeros;
    match s
    case Other(neg, nan) =>
    case Finite(neg, d, x) =>
      var ds := Six(d);
      StripClean(ds);
      StripClean(ds[1..]);
      if x >= 0 { StripClean(ds[x + 1..]); }
      UnsignedStart(d, x);
      UnsignedClean(d, x);
  }

  lemma UnsignedClean(d: nat, x: int)
    requires d < 1000000 && x < 6
    ensures Clean(Unsigned(d, x))
  {
    hide Strip, ExponentDigits, Six, Zeros;
    var ds := Six(d);
    StripClean(ds);
    StripClean(ds[1..]);
    if x >= 0 { StripClean(ds[x + 1..]); }
  }

  /** What becomes of a printed number: the decimal shown, unless it is printed with `e+`. Then the text up to the
      plus is taken for a register, which makes it register 0, and the exponent for the number to add. */
  lemma ConstantParsed(a: Arith, v: Elem)
    requires Sane(a)
    ensures Parse(a, Constant(a, v)) ==
      if Large(a.shown(v)) then Sum(false, a.ofInt(a.shown(v).exp), 0) else Imm(false, a.nearest(Meaning(a.shown(v))))
  {
    hide Sane, ScanNumber, Numeral, Lowest, Meaning, Clean;
    var s := a.shown(v);
    var text := Numeral(s);
    assert text + [] == text;
    NumeralRead(s, []);
    if Large(s) {
      LargeParsed(a, s);
    } else {
      SmallClean(s);
      NameWhole(text, []);
      CleanStart(text, []);
      assert text[|text|..] == [];
    }
  }

  lemma CleanStart(s: string, rest: string)
    requires Clean(s) && s != [] && !IsSpace(s[0])
    ensures HandleRam(s + rest) == (false, s + rest) && SkipSpaces(s + rest) == s + rest
  {
  }

  lemma LargeParsed(a: Arith, s: Printed)
    requires Sane(a) && Large(s) && ScanNumber(Numeral(s)) == Some((Meaning(s), []))
    ensures Parse(a, Numeral(s)) == Sum(false, a.ofInt(s.exp), 0)
  {
    hide Sane, ScanNumber, Numeral, Lowest, Meaning, Clean, Value, ExponentDigits;
    var ds := ExponentDigits(s.exp);
    var front := LargeSplit(s);
    CleanStart(front, ['+'] + ds);
    NameWhole(front, ['+'] + ds);
    assert (['+'] + ds)[1..] == ds + [];
    DigitsRead(ds, []);
    ExponentValue(s.exp);
    SlotNumber(a, s.exp);
  }

  /** Printing and reading six digits gives the number back. */
  predicate SixDigits(a: Arith, v: Elem) { a.nearest(Meaning(a.shown(v))) == v }

  /** A number that the assembler gets as it is in the tree. */
  predicate Survives(a: Arith, v: Elem) { SixDigits(a, v) && !Large(a.shown(v)) }

  /** Decimals of at most six digits below a million are such numbers. */
  lemma SurvivingDecimal(a: Arith, s: Printed)
    requires Sane(a) && s.Finite? && -NORMAL <= s.exp < 6
    ensures Survives(a, a.nearest(Meaning(s)))
  {
    hide Valid, Meaning;
  }

  /** What `push` of a printed number puts on the stack. */
  function Loaded(a: Arith, rax: Elem, v: Elem): Elem {
    if Large(a.shown(v)) then a.add(a.ofInt(a.shown(v).exp), rax) else a.nearest(Meaning(a.shown(v)))
  }

  /** The number of the tree is the operand exactly when it survives, and where rax is zero the stack gets it
      exactly then. */
  lemma LoadedIff(a: Arith, v: Elem)
    requires Sane(a)
    ensures Parse(a, Constant(a, v)) == Imm(false, v) <==> Survives(a, v)
    ensures Loaded(a, ZERO, v) == v <==> Survives(a, v)
  {
    hide Valid, Meaning, Parse, Constant;
    ConstantParsed(a, v);
    if Large(a.shown(v)) {
      ExponentRange(a.shown(v));
      ExponentIsSmall(a, a.shown(v).exp);
    }
  }

  lemma ExponentRange(s: Printed)
    requires Large(s)
    ensures 6 <= s.exp <= 308
  {
  }

  lemma ExponentIsSmall(a: Arith, n: nat)
    requires Sane(a) && 0 < n < 1000
    ensures a.add(a.ofInt(n), ZERO) == a.ofInt(n) && !Large(a.shown(a.ofInt(n)))
  {
    hide Valid, Meaning, Lowest;
    ShownIntMeaning(n);
    assert a.shown(a.nearest(Meaning(ShownInt(n)))) == ShownInt(n);
  }

  /** The tree with every number replaced by what its `push` delivers. */
  function AsLoaded(a: Arith, rax: Elem, t: Tree): (r: Tree)
    ensures IsExpr(r) == IsExpr(t) && IsCond(r) == IsCond(t) && IsStmt(r) == IsStmt(t)
    ensures (r == Null) == (t == Null)
  {
    match t
    case NumT(v) => NumT(Loaded(a, rax, v))
    case OpT(op, l, r) => OpT(op, AsLoaded(a, rax, l), AsLoaded(a, rax, r))
    case _ => t
  }

  predicate AllSurvive(a: Arith, t: Tree) {
    match t
    case NumT(v) => Survives(a, v)
    case OpT(_, l, r) => AllSurvive(a, l) && AllSurvive(a, r)
    case _ => true
  }

  /** Where rax is zero, the numbers are those of the tree if and only if all of them survive. */
  lemma {:induction false} AllLoadedIff(a: Arith, t: Tree)
    requires Sane(a)
    ensures AsLoaded(a, ZERO, t) == t <==> AllSurvive(a, t)
  {
    match t
    case NumT(v) => LoadedIff(a, v);
    case OpT(_, l, r) =>
      AllLoadedIff(a, l);
      AllLoadedIff(a, r);
    case _ =>
  }

  /** `x = 1000000` as the front end reads it. */
  function Million(a: Arith): Elem { a.nearest(Lowest(false, 1000000, 0)) }

  function MillionToX(a: Arith): Tree { OpT(VAR, VarT("x"), NumT(Million(a))) }

  lemma MillionText()
    ensures Numeral(Finite(false, 100000, 6)) == "1e+06"
  {
    hide Value;
    assert Six(100000) == "100000" && "100000"[..1] == "1" && "100000"[1..] == "00000";
    assert "00000"[..4] == "0000" && "0000"[..3] == "000" && "000"[..2] == "00" && "00"[..1] == "0" && "0"[..0] == [];
    assert Strip([]) == [] && Strip("0") == [] && Strip("00") == [] && Strip("000") == [] && Strip("0000") == [];
    assert Strip("00000") == [] && Digits(6) == "6" && Exponent(6) == "e+06";
    assert Unsigned(100000, 6) == "1" + "e+06";
  }

  /** A number on which the code and the language differ: a million is printed as `1e+06`, assembled as register
      plus six, and `x` becomes 6. */
  lemma MillionIsSix(a: Arith)
    requires Sane(a)
    ensures Constant(a, Million(a)) == "1e+06" && Parse(a, "1e+06") == Sum(false, a.ofInt(6), 0)
    ensures IsStmt(MillionToX(a)) && !Survives(a, Million(a)) && a.ofInt(6) != Million(a)
    ensures Exec(a, MillionToX(a), map[]) == map["x" := Million(a)]
    ensures Exec(a, AsLoaded(a, ZERO, MillionToX(a)), map[]) == map["x" := a.ofInt(6)]
  {
    hide Parse, Lowest, Numeral, Meaning;
    MillionShown(a);
    MillionText();
    ConstantParsed(a, Million(a));
    ExponentIsSmall(a, 6);
    assert AsLoaded(a, ZERO, VarT("x")) == VarT("x") && AsLoaded(a, ZERO, NumT(Million(a))) == NumT(a.ofInt(6));
    assert AsLoaded(a, ZERO, MillionToX(a)) == OpT(VAR, VarT("x"), NumT(a.ofInt(6)));
  }

  lemma MillionShown(a: Arith)
    requires Sane(a)
    ensures a.shown(Million(a)) == Finite(false, 100000, 6)
  {
    hide Lowest;
    LowestShift(false, 100000, 0);
    var s: Printed := Finite(false, 100000, 6);
    assert a.shown(a.nearest(Meaning(s))) == s;
  }
}
