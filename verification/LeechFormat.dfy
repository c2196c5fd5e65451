/** The file format of the virtual machine: what is written for objects, functions and whole files, and what
    reading it back gives. */
module LeechFormat {
  type Byte = b: int | 0 <= b < 256

  const U64 := 0x1_0000_0000_0000_0000

  /** A 64-bit number, signed or a floating-point word, a string, a tuple, or one of the two objects the reader
      does not know; `NullObj` is the missing object it returns for those. */
  datatype Obj =
    | IntegerObj(value: int)
    | FloatObj(word: nat)
    | StringObj(chars: seq<Byte>)
    | TupleObj(tuple: seq<Obj>)
    | NoneObj
    | ClassObj
    | NullObj

  datatype FuncMeta = FuncMeta(addr: nat, argNum: nat, cstPool: seq<Obj>, names: seq<seq<Byte>>)

  datatype Instruction = Instruction(opcode: Byte, arg: Byte)

  datatype LeechFile = LeechFile(funcs: map<seq<Byte>, FuncMeta>, code: seq<Instruction>)

  /** What reading from a stream gives: a value and what is left, or an exception. */
  datatype Read<+T> = Got(value: T, rest: seq<Byte>) | Fail

  const theLEECH: seq<Byte> := [0x74, 0x68, 0x65, 0x4C, 0x45, 0x45, 0x43, 0x48]

  // ----- Numbers and strings -----

  /** The `k` low bytes of a number, least significant first. */
  function Num(n: nat, k: nat): (r: seq<Byte>)
    ensures |r| == k
  {
    if k == 0 then [] else [n % 256] + Num(n / 256, k - 1)
  }

  function Value(s: seq<Byte>): nat {
    if |s| == 0 then 0 else s[0] + 256 * Value(s[1..])
  }

  function Power(k: nat): (r: nat)
    ensures r > 0
  {
    if k == 0 then 1 else 256 * Power(k - 1)
  }

  function Unsigned(v: int): nat
    requires -U64 / 2 <= v < U64 / 2
  {
    if v < 0 then v + U64 else v
  }

  function Signed(n: nat): int { if n >= U64 / 2 then n - U64 else n }

  function Str(s: seq<Byte>): seq<Byte> { Num(|s|, 8) + s }

  function GetNum(b: seq<Byte>, k: nat): (r: Read<nat>)
    ensures r.Got? ==> |b| >= k && r.rest == b[k..]
  {
    if |b| < k then Fail else Got(Value(b[..k]), b[k..])
  }

  function GetStr(b: seq<Byte>, n: nat): (r: Read<seq<Byte>>)
    ensures r.Got? ==> |b| >= n && r.rest == b[n..]
  {
    if |b| < n then Fail else Got(b[..n], b[n..])
  }

  lemma {:induction false} ValueBack(n: nat, k: nat)
    requires n < Power(k)
    ensures Value(Num(n, k)) == n
  {
    if k > 0 {
      Divide(n, Power(k - 1));
      ValueBack(n / 256, k - 1);
      assert Num(n, k)[1..] == Num(n / 256, k - 1);
    }
  }

  lemma Divide(n: nat, p: nat)
    requires n < 256 * p
    ensures n / 256 < p
  {
  }

  lemma Powers()
    ensures Power(1) == 256 && Power(8) == U64
  {
    assert Power(2) == 256 * 256;
    assert Power(4) == 256 * 256 * 256 * 256;
    assert Power(6) == 256 * 256 * Power(4);
  }

  lemma NumBack(n: nat, k: nat, rest: seq<Byte>)
    requires (k == 8 && n < U64) || (k == 1 && n < 256)
    ensures GetNum(Num(n, k) + rest, k) == Got(n, rest)
  {
    hide Num, Value, Power;
    Powers();
    ValueBack(n, k);
    assert (Num(n, k) + rest)[..k] == Num(n, k) && (Num(n, k) + rest)[k..] == rest;
  }

  lemma StrBack(s: seq<Byte>, rest: seq<Byte>)
    ensures GetStr(s + rest, |s|) == Got(s, rest)
  {
    assert (s + rest)[..|s|] == s && (s + rest)[|s|..] == rest;
  }

  // ----- Objects -----

  /** What an object of the machine can hold, sizes included. */
  predicate Fits(x: Obj) {
    match x
    case IntegerObj(v) => -U64 / 2 <= v < U64 / 2
    case FloatObj(w) => w < U64
    case StringObj(s) => |s| < U64
    case TupleObj(xs) => |xs| < U64 && forall i :: 0 <= i < |xs| ==> Fits(xs[i])
    case _ => true
  }

  /** Writing a class throws, and there is nothing to write for a missing object. */
  predicate Writable(x: Obj) {
    match x
    case TupleObj(xs) => forall i :: 0 <= i < |xs| ==> Writable(xs[i])
    case ClassObj => false
    case NullObj => false
    case _ => true
  }

  function TypeByte(x: Obj): Byte
    requires x != NullObj
  {
    match x case IntegerObj(_) => 1 case FloatObj(_) => 2 case StringObj(_) => 3 case TupleObj(_) => 4 case ClassObj => 5 case NoneObj => 6
  }

  function ObjBytes(x: Obj): seq<Byte>
    requires Fits(x) && Writable(x)
    decreases x, 0
  {
    match x
    case IntegerObj(v) => [1] + Num(8, 8) + Num(Unsigned(v), 8)
    case FloatObj(w) => [2] + Num(8, 8) + Num(w, 8)
    case StringObj(s) => [3] + Num(|s|, 8) + s
    case TupleObj(xs) => [4] + Num(|xs|, 8) + ObjsBytes(xs)
    case NoneObj => [6]
  }

  function ObjsBytes(xs: seq<Obj>): seq<Byte>
    requires forall i :: 0 <= i < |xs| ==> Fits(xs[i]) && Writable(xs[i])
    decreases xs, 1
  {
    if |xs| == 0 then [] else ObjBytes(xs[0]) + ObjsBytes(xs[1..])
  }

  /** Reads an object; a type that is not one of the four gives a missing object. */
  function GetObj(b: seq<Byte>): (r: Read<Obj>)
    ensures r.Got? ==> |r.rest| < |b|
    decreases |b|, 0
  {
    var kind := GetNum(b, 1);
    if kind.Fail? then Fail
    else if kind.value !in {1, 2, 3, 4} then Got(NullObj, kind.rest)
    else
      var size := GetNum(kind.rest, 8);
      if size.Fail? then Fail
      else if kind.value == 3 then
        var s := GetStr(size.rest, size.value);
        if s.Fail? then Fail else Got(StringObj(s.value), s.rest)
      else if kind.value == 4 then
        var xs := GetObjs(size.rest, size.value);
        if xs.Fail? then Fail else Got(TupleObj(xs.value), xs.rest)
      else
        var n := GetNum(size.rest, 8);
        if n.Fail? then Fail
        else Got(if kind.value == 1 then IntegerObj(Signed(n.value)) else FloatObj(n.value), n.rest)
  }

  function GetObjs(b: seq<Byte>, n: nat): (r: Read<seq<Obj>>)
    ensures r.Got? ==> |r.rest| <= |b|
    decreases |b|, n + 1
  {
    if n == 0 then Got([], b)
    else
      var x := GetObj(b);
      if x.Fail? then Fail
      else
        var xs := GetObjs(x.rest, n - 1);
        if xs.Fail? then Fail else Got([x.value] + xs.value, xs.rest)
  }

  /** The object that comes back: the same, except that None becomes a missing object. */
  function Returned(x: Obj): Obj {
    match x
    case TupleObj(xs) => TupleObj(ReturnedAll(xs))
    case NoneObj => NullObj
    case _ => x
  }

  function ReturnedAll(xs: seq<Obj>): (r: seq<Obj>)
    ensures |r| == |xs|
  {
    if |xs| == 0 then [] else [Returned(xs[0])] + ReturnedAll(xs[1..])
  }

  /** No missing object anywhere inside: what can be copied. */
  predicate Whole(x: Obj) {
    match x
    case TupleObj(xs) => forall i :: 0 <= i < |xs| ==> Whole(xs[i])
    case _ => x != NullObj
  }

  /** No None anywhere inside. */
  predicate Plain(x: Obj) {
    match x
    case TupleObj(xs) => forall i :: 0 <= i < |xs| ==> Plain(xs[i])
    case _ => x != NoneObj
  }

  /** Reading what was written for an object gives the object back and leaves what follows. */
  lemma {:induction false} ObjBack(x: Obj, rest: seq<Byte>)
    requires Fits(x) && Writable(x)
    ensures GetObj(ObjBytes(x) + rest) == Got(Returned(x), rest)
    decreases x, 0
  {
    hide GetNum, GetStr, Num, GetObjs, ObjsBytes, ReturnedAll;
    match x
    case IntegerObj(v) =>
      SizedBack(x, 8, Num(Unsigned(v), 8), rest);
      NumBack(Unsigned(v), 8, rest);
    case FloatObj(w) =>
      SizedBack(x, 8, Num(w, 8), rest);
      NumBack(w, 8, rest);
    case StringObj(s) =>
      SizedBack(x, |s|, s, rest);
      StrBack(s, rest);
    case TupleObj(xs) =>
      SizedBack(x, |xs|, ObjsBytes(xs), rest);
      ObjsBack(xs, rest);
    case NoneObj =>
      KindBack(6, [], rest);
      assert [6] + [] == [6] && [] + rest == rest;
  }

  lemma SizedBack(x: Obj, size: nat, body: seq<Byte>, rest: seq<Byte>)
    requires Fits(x) && Writable(x) && size < U64 && x != NoneObj && ObjBytes(x) == [TypeByte(x)] + Num(size, 8) + body
    ensures GetNum(ObjBytes(x) + rest, 1) == Got(TypeByte(x), Num(size, 8) + body + rest)
    ensures GetNum(Num(size, 8) + body + rest, 8) == Got(size, body + rest)
  {
    hide GetNum, Num, ObjBytes;
    KindBack(TypeByte(x), Num(size, 8) + body, rest);
    TwoBack(size, body, rest);
    assert ObjBytes(x) + rest == [TypeByte(x)] + (Num(size, 8) + body) + rest;
  }

  lemma KindBack(kind: Byte, body: seq<Byte>, rest: seq<Byte>)
    ensures GetNum([kind] + body + rest, 1) == Got(kind, body + rest)
  {
    hide GetNum;
    NumBack(kind, 1, body + rest);
    OneByte(kind);
    assert [kind] + body + rest == [kind] + (body + rest);
  }

  lemma OneByte(kind: Byte)
    ensures Num(kind, 1) == [kind]
  {
  }

  lemma TwoBack(size: nat, body: seq<Byte>, rest: seq<Byte>)
    requires size < U64
    ensures GetNum(Num(size, 8) + body + rest, 8) == Got(size, body + rest)
  {
    hide GetNum;
    NumBack(size, 8, body + rest);
    assert Num(size, 8) + body + rest == Num(size, 8) + (body + rest);
  }

  lemma {:induction false} ObjsBack(xs: seq<Obj>, rest: seq<Byte>)
    requires forall i :: 0 <= i < |xs| ==> Fits(xs[i]) && Writable(xs[i])
    ensures GetObjs(ObjsBytes(xs) + rest, |xs|) == Got(ReturnedAll(xs), rest)
    decreases xs, 1
  {
    hide GetObj, ObjBytes, Returned, Fits, Writable;
    if |xs| == 0 {
      assert ObjsBytes(xs) + rest == rest;
    } else {
      ObjBack(xs[0], ObjsBytes(xs[1..]) + rest);
      ObjsBack(xs[1..], rest);
      assert ObjsBytes(xs) + rest == ObjBytes(xs[0]) + (ObjsBytes(xs[1..]) + rest);
    }
  }

  /** An object comes back as it was exactly when there is no None in it, and only then is it whole. */
  lemma {:induction false} PlainComesBack(x: Obj)
    requires Writable(x)
    ensures (Returned(x) == x <==> Plain(x)) && (Whole(Returned(x)) <==> Plain(x))
    decreases x, 0
  {
    if x.TupleObj? { PlainAll(x.tuple); }
  }

  lemma {:induction false} PlainAll(xs: seq<Obj>)
    requires forall i :: 0 <= i < |xs| ==> Writable(xs[i])
    ensures ReturnedAll(xs) == xs <==> forall i :: 0 <= i < |xs| ==> Plain(xs[i])
    ensures var r := ReturnedAll(xs); (forall i :: 0 <= i < |r| ==> Whole(r[i])) <==> forall i :: 0 <= i < |xs| ==> Plain(xs[i])
    decreases xs, 1
  {
    hide Returned, Whole, Plain, Writable;
    if |xs| > 0 {
      var r := ReturnedAll(xs);
      PlainComesBack(xs[0]);
      PlainAll(xs[1..]);
      assert r[1..] == ReturnedAll(xs[1..]) && r[0] == Returned(xs[0]);
      assert xs == [xs[0]] + xs[1..];
      Headed(xs, Plain);
      Headed(r, Whole);
    }
  }

  lemma Headed(xs: seq<Obj>, p: Obj -> bool)
    requires |xs| > 0
    ensures (forall i :: 0 <= i < |xs| ==> p(xs[i])) <==> p(xs[0]) && forall i :: 0 <= i < |xs[1..]| ==> p(xs[1..][i])
  {
    if p(xs[0]) && forall i :: 0 <= i < |xs[1..]| ==> p(xs[1..][i]) {
      forall i | 0 <= i < |xs| ensures p(xs[i]) {
        if i > 0 { assert xs[i] == xs[1..][i - 1]; }
      }
    }
    if forall i :: 0 <= i < |xs| ==> p(xs[i]) {
      forall i | 0 <= i < |xs[1..]| ensures p(xs[1..][i]) { assert xs[1..][i] == xs[i + 1]; }
    }
  }
}
