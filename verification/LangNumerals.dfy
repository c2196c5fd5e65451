/** Numerals: what `%lg` prints of a double and what `sscanf` reads back. */
module LangNumerals {
  import opened Wrappers

  /** What printing sees of a double: its sign, six significant digits (as an integer, or zero) and the
      decimal exponent of the first of them; or an infinity or NaN. */
  datatype Shown = Finite(neg: bool, digits: nat, exp: int) | Other(neg: bool, nan: bool)

  /** What reading delivers: a decimal in lowest terms, or an infinity or NaN. */
  datatype Number = Decimal(neg: bool, mantissa: nat, scale: int) | Special(neg: bool, nan: bool)

  /** The exponents of 64-bit doubles. */
  predicate Valid(s: Shown) {
    s.Finite? ==>
      if s.digits == 0 then s.exp == 0 else 100000 <= s.digits < 1000000 && -324 <= s.exp <= 308
  }

  type Printed = s: Shown | Valid(s) witness Finite(false, 0, 0)

  /** The same decimal without trailing zeros. */
  function Lowest(neg: bool, m: nat, e: int): (r: Number)
    ensures r.Decimal? && r.neg == neg && (m == 0 || r.mantissa % 10 != 0)
  {
    if m == 0 then Decimal(neg, 0, 0) else if m % 10 == 0 then Lowest(neg, m / 10, e + 1) else Decimal(neg, m, e)
  }

  /** The decimal that is shown. */
  function Meaning(s: Shown): Number {
    match s
    case Finite(neg, d, x) => Lowest(neg, d, x - 5)
    case Other(neg, nan) => Special(neg, nan)
  }

  // ----- Digits -----

  predicate IsDigit(c: char) { '0' <= c <= '9' }

  predicate AllDigits(ds: string) { forall k :: 0 <= k < |ds| ==> IsDigit(ds[k]) }

  function DigitChar(n: nat): char
    requires n < 10
  {
    '0' + n as char
  }

  function DigitValue(c: char): nat
    requires IsDigit(c)
  {
    c as int - '0' as int
  }

  function Value(ds: string): nat
    requires AllDigits(ds)
  {
    if ds == [] then 0 else 10 * Value(ds[..|ds| - 1]) + DigitValue(ds[|ds| - 1])
  }

  /** `%d` of a number that is not negative. */
  function Digits(n: nat): (ds: string)
    ensures AllDigits(ds) && |ds| > 0 && Value(ds) == n
  {
    if n < 10 then [DigitChar(n)]
    else
      var front := Digits(n / 10);
      var ds := front + [DigitChar(n % 10)];
      assert ds[..|ds| - 1] == front;
      ds
  }

  /** Six digits, leading zeros included. */
  function Six(d: nat): (ds: string)
    requires d < 1000000
    ensures |ds| == 6 && AllDigits(ds)
  {
    [DigitChar(d / 100000), DigitChar(d / 10000 % 10), DigitChar(d / 1000 % 10),
     DigitChar(d / 100 % 10), DigitChar(d / 10 % 10), DigitChar(d % 10)]
  }

  lemma ValueAppend(ds: string, c: char)
    requires AllDigits(ds) && IsDigit(c)
    ensures AllDigits(ds + [c]) && Value(ds + [c]) == 10 * Value(ds) + DigitValue(c)
  {
    assert (ds + [c])[..|ds|] == ds;
  }

  lemma SixValue(d: nat)
    requires d < 1000000
    ensures Value(Six(d)) == d
  {
    hide Value;
    var ds := Six(d);
    assert Value(ds[..1]) == d / 100000 by {
      ValueAppend([], ds[0]);
      assert [] + [ds[0]] == ds[..1] && Value([]) == 0 by { EmptyValue(); }
    }
    SixStep(ds, 1, d / 10000);
    SixStep(ds, 2, d / 1000);
    SixStep(ds, 3, d / 100);
    SixStep(ds, 4, d / 10);
    SixStep(ds, 5, d);
    assert ds[..6] == ds;
  }

  lemma EmptyValue()
    ensures Value([]) == 0
  {
  }

  lemma SixStep(ds: string, k: nat, n: nat)
    requires k < |ds| && AllDigits(ds) && Value(ds[..k]) == n / 10 && ds[k] == DigitChar(n % 10)
    ensures Value(ds[..k + 1]) == n
  {
    assert ds[..k + 1] == ds[..k] + [ds[k]];
    ValueAppend(ds[..k], ds[k]);
  }

  /** Without the zeros at the end. */
  function Strip(ds: string): (r: string)
    ensures r <= ds
  {
    if ds != [] && ds[|ds| - 1] == '0' then Strip(ds[..|ds| - 1]) else ds
  }

  function Zeros(k: nat): (r: string)
    ensures |r| == k && AllDigits(r)
  {
    if k == 0 then [] else ['0'] + Zeros(k - 1)
  }

  /** Zeros dropped at the end only move the scale. */
  lemma {:induction false} StripValue(neg: bool, before: string, ds: string, e: int)
    requires AllDigits(before) && AllDigits(ds)
    ensures Lowest(neg, Value(before + ds), e) == Lowest(neg, Value(before + Strip(ds)), e + |ds| - |Strip(ds)|)
  {
    hide Lowest, Value;
    if ds != [] && ds[|ds| - 1] == '0' {
      var front := ds[..|ds| - 1];
      StripValue(neg, before, front, e + 1);
      assert before + ds == (before + front) + ['0'];
      ValueAppend(before + front, '0');
      LowestShift(neg, Value(before + front), e);
    }
  }

  lemma LowestShift(neg: bool, m: nat, e: int)
    ensures Lowest(neg, 10 * m, e) == Lowest(neg, m, e + 1)
  {
  }

  /** Zeros in front do not count. */
  lemma {:induction false} LeadingZeros(k: nat, ds: string)
    requires AllDigits(ds)
    ensures Value(Zeros(k) + ds) == Value(ds)
    decreases k, |ds|
  {
    if ds != [] {
      var front := ds[..|ds| - 1];
      LeadingZeros(k, front);
      assert ds == front + [ds[|ds| - 1]];
      assert Zeros(k) + ds == (Zeros(k) + front) + [ds[|ds| - 1]];
      ValueAppend(Zeros(k) + front, ds[|ds| - 1]);
    } else {
      assert Zeros(k) + [] == Zeros(k);
      ZerosValue(k);
    }
  }

  lemma {:induction false} ZerosValue(k: nat)
    ensures Value(Zeros(k)) == 0
  {
    if k > 0 {
      ZerosValue(k - 1);
      ZerosEnd(k - 1);
      ValueAppend(Zeros(k - 1), '0');
    }
  }

  lemma {:induction false} ZerosEnd(k: nat)
    ensures Zeros(k + 1) == Zeros(k) + ['0']
  {
    if k > 0 { ZerosEnd(k - 1); }
  }

  // ----- Printing -----

  function Mantissa(whole: string, frac: string): string { if frac == [] then whole else whole + ['.'] + frac }

  /** At least two digits. */
  function ExponentDigits(x: nat): (ds: string)
    ensures AllDigits(ds) && |ds| > 0
  {
    if x < 10 then ['0'] + Digits(x) else Digits(x)
  }

  function Exponent(x: int): string {
    ['e', if x < 0 then '-' else '+'] + ExponentDigits(if x < 0 then -x else x)
  }

  /** Printed with an exponent: below 10^-4, or from a million on. */
  predicate Scientific(x: int) { x < -4 || x >= 6 }

  function Unsigned(d: nat, x: int): string
    requires d < 1000000
  {
    var ds := Six(d);
    if Scientific(x) then Mantissa(ds[..1], Strip(ds[1..])) + Exponent(x)
    else if x >= 0 then Mantissa(ds[..x + 1], Strip(ds[x + 1..]))
    else Mantissa(['0'], Zeros(-x - 1) + Strip(ds))
  }

  function Sign(neg: bool): string { if neg then ['-'] else [] }

  /** What `%lg` prints. */
  function Numeral(s: Printed): string {
    match s
    case Finite(neg, d, x) => Sign(neg) + Unsigned(d, x)
    case Other(neg, nan) => Sign(neg) + if nan then "nan" else "inf"
  }

  // ----- Reading -----

  predicate IsSpace(c: char) { c == ' ' || c == '\t' || c == '\n' || c == '\r' }

  function SkipSpaces(s: string): string { if s != [] && IsSpace(s[0]) then SkipSpaces(s[1..]) else s }

  /** The number of digits in front. */
  function Span(s: string): (n: nat)
    ensures n <= |s| && AllDigits(s[..n])
  {
    if s != [] && IsDigit(s[0]) then
      assert s[..1 + Span(s[1..])] == [s[0]] + s[1..][..Span(s[1..])];
      1 + Span(s[1..])
    else 0
  }

  datatype Parts = Parts(whole: string, frac: string, rest: string)

  function ScanMantissa(t: string): (p: Parts)
    ensures AllDigits(p.whole) && AllDigits(p.frac)
  {
    var n := Span(t);
    if n < |t| && t[n] == '.' then
      var u := t[n + 1..];
      var k := Span(u);
      Parts(t[..n], u[..k], u[k..])
    else Parts(t[..n], [], t[n..])
  }

  /** An exponent, if there is one; an `e` without digits makes the whole number fail. */
  function ScanExponent(t: string): Option<(int, string)> {
    if t == [] || t[0] != 'e' then Some((0, t))
    else
      var signed := |t| > 1 && t[1] in {'+', '-'};
      var u := t[if signed then 2 else 1..];
      var n := Span(u);
      if n == 0 then None
      else
        var x: int := Value(u[..n]);
        Some((if signed && t[1] == '-' then -x else x, u[n..]))
  }

  function ScanDecimal(neg: bool, t: string): Option<(Number, string)> {
    var p := ScanMantissa(t);
    if p.whole + p.frac == [] then None
    else
      match ScanExponent(p.rest)
      case None => None
      case Some((x, rest)) => Some((Lowest(neg, Value(p.whole + p.frac), x - |p.frac|), rest))
  }

  function ScanMagnitude(neg: bool, t: string): Option<(Number, string)> {
    if "inf" <= t then Some((Special(neg, false), t[3..]))
    else if "nan" <= t then Some((Special(neg, true), t[3..]))
    else ScanDecimal(neg, t)
  }

  /** The conversion `%lg`: the number in front and what follows it. */
  function ScanNumber(s: string): Option<(Number, string)> {
    var t := SkipSpaces(s);
    if t != [] && t[0] in {'+', '-'} then ScanMagnitude(t[0] == '-', t[1..]) else ScanMagnitude(false, t)
  }

  // ----- Reading what was printed -----

  /** Nothing that would go on with the digits. */
  predicate Ends(rest: string) { rest == [] || !IsDigit(rest[0]) }

  lemma {:induction false} SpanOf(ds: string, rest: string)
    requires AllDigits(ds) && Ends(rest)
    ensures Span(ds + rest) == |ds| && (ds + rest)[..|ds|] == ds && (ds + rest)[|ds|..] == rest
  {
    if ds == [] {
      assert ds + rest == rest;
    } else {
      assert (ds + rest)[1..] == ds[1..] + rest;
      SpanOf(ds[1..], rest);
    }
  }

  lemma MantissaRead(whole: string, frac: string, rest: string)
    requires AllDigits(whole) && AllDigits(frac) && |whole| > 0 && Ends(rest) && (rest == [] || rest[0] != '.')
    ensures ScanMantissa(Mantissa(whole, frac) + rest) == Parts(whole, frac, rest)
  {
    if frac == [] {
      SpanOf(whole, rest);
    } else {
      var t := Mantissa(whole, frac) + rest;
      assert t == whole + (['.'] + frac + rest);
      SpanOf(whole, ['.'] + frac + rest);
      assert t[|whole| + 1..] == frac + rest;
      SpanOf(frac, rest);
    }
  }

  lemma ExponentRead(x: int, rest: string)
    requires Ends(rest)
    ensures ScanExponent(Exponent(x) + rest) == Some((x, rest))
  {
    hide Value, ExponentDigits, Span;
    var n := if x < 0 then -x else x;
    var ds := ExponentDigits(n);
    ExponentValue(n);
    SpanOf(ds, rest);
    var t := Exponent(x) + rest;
    assert t[2..] == ds + rest;
    assert t[0] == 'e' && t[1] == if x < 0 then '-' else '+';
  }

  lemma ExponentValue(x: nat)
    ensures Value(ExponentDigits(x)) == x
  {
    if x < 10 {
      assert Zeros(1) == ['0'];
      LeadingZeros(1, Digits(x));
    }
  }

  lemma DigitStart(neg: bool, t: string)
    requires t != [] && IsDigit(t[0])
    ensures ScanMagnitude(neg, t) == ScanDecimal(neg, t)
  {
    hide ScanDecimal;
    assert "inf"[0] == 'i' && "nan"[0] == 'n';
  }

  /** A mantissa and what follows it, read as one number. */
  lemma MagnitudeRead(neg: bool, whole: string, frac: string, exponent: string, x: int, rest: string)
    requires AllDigits(whole) && AllDigits(frac) && |whole| > 0
    requires Ends(exponent + rest) && (exponent + rest == [] || (exponent + rest)[0] != '.')
    requires ScanExponent(exponent + rest) == Some((x, rest))
    ensures ScanMagnitude(neg, Mantissa(whole, frac) + exponent + rest)
         == Some((Lowest(neg, Value(whole + frac), x - |frac|), rest))
  {
    hide Value, Lowest, ScanMantissa, ScanExponent, ScanMagnitude;
    var t := Mantissa(whole, frac) + exponent + rest;
    assert t == Mantissa(whole, frac) + (exponent + rest);
    MantissaRead(whole, frac, exponent + rest);
    assert IsDigit(whole[0]) && t[0] == whole[0];
    DigitStart(neg, t);
  }

  /** Nothing that would go on with a printed number. */
  predicate Stops(rest: string) { rest == [] || (!IsDigit(rest[0]) && rest[0] != '.' && rest[0] != 'e') }

  lemma StripDigits(ds: string)
    requires AllDigits(ds)
    ensures AllDigits(Strip(ds)) && (ds != [] && ds[0] != '0' ==> Strip(ds) != [])
  {
  }

  lemma UnsignedRead(neg: bool, d: nat, x: int, rest: string)
    requires Valid(Finite(neg, d, x)) && Stops(rest)
    ensures ScanMagnitude(neg, Unsigned(d, x) + rest) == Some((Lowest(neg, d, x - 5), rest))
  {
    hide Unsigned, ScanMagnitude, Lowest;
    if Scientific(x) {
      ScientificRead(neg, d, x, rest);
    } else if x >= 0 {
      FixedRead(neg, d, x, rest);
    } else {
      SmallRead(neg, d, x, rest);
    }
  }

  lemma ScientificRead(neg: bool, d: nat, x: int, rest: string)
    requires d < 1000000 && Scientific(x) && Stops(rest)
    ensures ScanMagnitude(neg, Unsigned(d, x) + rest) == Some((Lowest(neg, d, x - 5), rest))
  {
    hide Value, Lowest, Six, Strip, ExponentDigits, ScanMagnitude, ScanExponent, Mantissa;
    SixValue(d);
    var ds := Six(d);
    var frac := Strip(ds[1..]);
    StripDigits(ds[1..]);
    ExponentRead(x, rest);
    MagnitudeRead(neg, ds[..1], frac, Exponent(x), x, rest);
    assert ds[..1] + ds[1..] == ds;
    StripValue(neg, ds[..1], ds[1..], x - 5);
  }

  lemma FixedRead(neg: bool, d: nat, x: int, rest: string)
    requires d < 1000000 && 0 <= x < 6 && Stops(rest)
    ensures ScanMagnitude(neg, Unsigned(d, x) + rest) == Some((Lowest(neg, d, x - 5), rest))
  {
    hide Value, Lowest, Six, Strip, ExponentDigits, ScanMagnitude, Mantissa;
    SixValue(d);
    var ds := Six(d);
    var frac := Strip(ds[x + 1..]);
    StripDigits(ds[x + 1..]);
    assert [] + rest == rest;
    MagnitudeRead(neg, ds[..x + 1], frac, [], 0, rest);
    assert Unsigned(d, x) + [] == Unsigned(d, x);
    assert ds[..x + 1] + ds[x + 1..] == ds;
    StripValue(neg, ds[..x + 1], ds[x + 1..], x - 5);
  }

  lemma SmallRead(neg: bool, d: nat, x: int, rest: string)
    requires 100000 <= d < 1000000 && -4 <= x < 0 && Stops(rest)
    ensures ScanMagnitude(neg, Unsigned(d, x) + rest) == Some((Lowest(neg, d, x - 5), rest))
  {
    hide Value, Lowest, Six, Strip, ExponentDigits, ScanMagnitude, Mantissa, Zeros;
    SixValue(d);
    var ds := Six(d);
    StripDigits(ds);
    var frac := Zeros(-x - 1) + Strip(ds);
    assert [] + rest == rest;
    MagnitudeRead(neg, ['0'], frac, [], 0, rest);
    assert Unsigned(d, x) + [] == Unsigned(d, x);
    OneMoreZero(-x - 1);
    assert ['0'] + frac == Zeros(-x) + Strip(ds);
    LeadingZeros(-x, Strip(ds));
    StripValue(neg, [], ds, x - 5);
    assert [] + ds == ds && [] + Strip(ds) == Strip(ds);
  }

  lemma OneMoreZero(k: nat)
    ensures Zeros(k + 1) == ['0'] + Zeros(k)
  {
  }

  /** A printed number is read as the decimal shown, whatever follows that cannot belong to it. */
  lemma NumeralRead(s: Printed, rest: string)
    requires Stops(rest)
    ensures ScanNumber(Numeral(s) + rest) == Some((Meaning(s), rest))
  {
    match s
    case Finite(neg, d, x) => FiniteRead(neg, d, x, rest);
    case Other(neg, nan) => OtherRead(neg, nan, rest);
  }

  lemma FiniteRead(neg: bool, d: nat, x: int, rest: string)
    requires Valid(Finite(neg, d, x)) && Stops(rest)
    ensures ScanNumber(Numeral(Finite(neg, d, x)) + rest) == Some((Meaning(Finite(neg, d, x)), rest))
  {
    hide ScanNumber, ScanMagnitude, Unsigned, Lowest, Sign;
    UnsignedRead(neg, d, x, rest);
    UnsignedStart(d, x);
    SignRead(neg, Unsigned(d, x) + rest);
    assert Sign(neg) + Unsigned(d, x) + rest == Sign(neg) + (Unsigned(d, x) + rest);
  }

  lemma OtherRead(neg: bool, nan: bool, rest: string)
    ensures ScanNumber(Numeral(Other(neg, nan)) + rest) == Some((Special(neg, nan), rest))
  {
    hide ScanNumber, ScanMagnitude, Sign;
    var w := if nan then "nan" else "inf";
    SignRead(neg, w + rest);
    assert Sign(neg) + w + rest == Sign(neg) + (w + rest);
    WordRead(neg, nan, rest);
  }

  lemma WordRead(neg: bool, nan: bool, rest: string)
    ensures ScanMagnitude(neg, (if nan then "nan" else "inf") + rest) == Some((Special(neg, nan), rest))
  {
    hide ScanDecimal;
    var w := if nan then "nan" else "inf";
    assert (w + rest)[3..] == rest && (w + rest)[..3] == w;
    assert nan ==> (w + rest)[0] == 'n' && "inf"[0] == 'i';
  }

  lemma SignRead(neg: bool, t: string)
    requires t != [] && !IsSpace(t[0]) && t[0] !in {'+', '-'}
    ensures ScanNumber(Sign(neg) + t) == ScanMagnitude(neg, t)
  {
    hide ScanMagnitude;
    assert (['-'] + t)[1..] == t && [] + t == t;
  }

  lemma UnsignedStart(d: nat, x: int)
    requires d < 1000000
    ensures Unsigned(d, x) != [] && IsDigit(Unsigned(d, x)[0])
  {
    hide Strip, Digits;
  }

  /** So are plain digits. */
  lemma DigitsRead(ds: string, rest: string)
    requires AllDigits(ds) && ds != [] && Stops(rest)
    ensures ScanNumber(ds + rest) == Some((Lowest(false, Value(ds), 0), rest))
  {
    hide ScanMagnitude, Lowest, Value, SkipSpaces;
    assert [] + rest == rest && Mantissa(ds, []) + [] + rest == ds + rest && ds + [] == ds;
    MagnitudeRead(false, ds, [], [], 0, rest);
    assert IsDigit(ds[0]);
    SignRead(false, ds + rest);
    assert Sign(false) + (ds + rest) == ds + rest;
  }

  /** The integers below a thousand as they are shown. */
  function ShownInt(n: nat): Shown
    requires 0 < n < 1000
  {
    if n < 10 then Finite(false, n * 100000, 0) else if n < 100 then Finite(false, n * 10000, 1) else Finite(false, n * 1000, 2)
  }

  lemma ShownIntMeaning(n: nat)
    requires 0 < n < 1000
    ensures Valid(ShownInt(n)) && Meaning(ShownInt(n)) == Lowest(false, n, 0)
  {
    hide Lowest;
    ShownHundreds(n);
    ShownTens(n);
    ShownOnes(n);
  }

  lemma ShownOnes(n: nat)
    ensures Lowest(false, n * 100000, -5) == Lowest(false, n, 0)
  {
    hide Lowest;
    LowestShift(false, 10000 * n, -5);
    ShownTens(n);
  }

  lemma ShownTens(n: nat)
    ensures Lowest(false, n * 10000, -4) == Lowest(false, n, 0)
  {
    hide Lowest;
    LowestShift(false, n, -1);
    LowestShift(false, 10 * n, -2);
    LowestShift(false, 100 * n, -3);
    LowestShift(false, 1000 * n, -4);
  }

  lemma ShownHundreds(n: nat)
    ensures Lowest(false, n * 1000, -3) == Lowest(false, n, 0)
  {
    hide Lowest;
    LowestShift(false, n, -1);
    LowestShift(false, 10 * n, -2);
    LowestShift(false, 100 * n, -3);
  }

  // ----- Numerals one can read -----

  lemma {:induction false} StripsTo(s: string, n: nat)
    requires n <= |s| && (forall i :: n <= i < |s| ==> s[i] == '0') && (n == 0 || s[n - 1] != '0')
    ensures Strip(s) == s[..n]
    decreases |s|
  {
    if n < |s| {
      StripsTo(s[..|s| - 1], n);
      assert s[..|s| - 1][..n] == s[..n];
    } else {
      assert s[..n] == s;
    }
  }

  lemma TwoDigits(n: nat)
    requires n < 100
    ensures Digits(n) == if n < 10 then [DigitChar(n)] else [DigitChar(n / 10), DigitChar(n % 10)]
  {
    if n >= 10 { assert Digits(n) == Digits(n / 10) + [DigitChar(n % 10)]; }
  }

  lemma FractionExample()
    ensures Numeral(Finite(true, 123456, 2)) == "-123.456"
  {
    hide Exponent, Digits, Strip;
    assert Six(123456) == "123456";
    StripsTo("456", 3);
    assert "123456"[3..] == "456" && "123456"[..3] == "123" && "456"[..3] == "456";
  }

  lemma WholeExample()
    ensures Numeral(Finite(false, 500000, 0)) == "5"
  {
    hide Exponent, Digits, Strip;
    assert Six(500000) == "500000";
    StripsTo("00000", 0);
    assert "500000"[1..] == "00000" && "500000"[..1] == "5" && "00000"[..0] == "";
  }

  /** The smallest power of ten that is printed without an exponent. */
  lemma SmallExample()
    ensures Numeral(Finite(false, 100000, -4)) == "0.0001"
  {
    hide Exponent, Digits, Strip;
    assert Six(100000) == "100000" && Zeros(3) == "000";
    StripsTo("100000", 1);
    assert "100000"[..1] == "1" && "000" + "1" == "0001";
  }

  /** From a million on there is an exponent with a sign and at least two digits. */
  lemma LargeExample()
    ensures Numeral(Finite(false, 100000, 6)) == "1e+06"
  {
    hide Digits, Strip;
    TwoDigits(6);
    assert Six(100000) == "100000";
    StripsTo("00000", 0);
    assert "100000"[1..] == "00000" && "100000"[..1] == "1" && "00000"[..0] == "";
    assert Exponent(6) == "e+06";
  }

  lemma TinyExample()
    ensures Numeral(Finite(true, 250000, -17)) == "-2.5e-17"
  {
    hide Digits, Strip;
    TwoDigits(17);
    assert Six(250000) == "250000";
    StripsTo("50000", 1);
    assert "250000"[1..] == "50000" && "250000"[..1] == "2" && "50000"[..1] == "5";
    assert Exponent(-17) == "e-17";
  }
}
