/** The streams a file is written to and read from, and the routines as they run. An exception shows as `ok`
    being false; what is left in the stream then is of no interest. */
module LeechStream {
  import opened LeechFormat
  import opened LeechFiles
  import opened LeechLayout

  class OutStream {
    var bytes: seq<Byte>

    constructor ()
      ensures bytes == []
    {
      bytes := [];
    }

    method Write(s: seq<Byte>)
      modifies this
      ensures bytes == old(bytes) + s
    {
      bytes := bytes + s;
    }

    method SerializeNum(n: nat, k: nat)
      modifies this
      ensures bytes == old(bytes) + Num(n, k)
    {
      Write(Num(n, k));
    }

    method SerializeString(s: seq<Byte>)
      modifies this
      ensures bytes == old(bytes) + Str(s)
    {
      SerializeNum(|s|, 8);
      if |s| > 0 { Write(s); }
    }

    /** Type, size and value; a class inside throws. */
    method SerializeObj(x: Obj) returns (ok: bool)
      requires Fits(x) && !HasNull(x)
      modifies this
      ensures ok <==> Writable(x)
      ensures ok ==> bytes == old(bytes) + ObjBytes(x) && AppendedObj(old(bytes), bytes, x)
      decreases x
    {
      hide Num, AppendedObj;
      if Writable(x) { ObjAppended(bytes, x); }
      ghost var start := bytes;
      SerializeNum(TypeByte(x), 1);
      OneByte(TypeByte(x));
      match x {
        case NoneObj => return true;
        case ClassObj => return false;
        case IntegerObj(v) =>
          SerializeNum(8, 8);
          SerializeNum(Unsigned(v), 8);
          Assoc4(start, [1], Num(8, 8), Num(Unsigned(v), 8));
        case FloatObj(w) =>
          SerializeNum(8, 8);
          SerializeNum(w, 8);
          Assoc4(start, [2], Num(8, 8), Num(w, 8));
        case StringObj(s) =>
          SerializeNum(|s|, 8);
          Write(s);
          Assoc4(start, [3], Num(|s|, 8), s);
        case TupleObj(xs) =>
          SerializeNum(|xs|, 8);
          ghost var before := bytes;
          var i := 0;
          while i < |xs|
            invariant 0 <= i <= |xs| && forall j :: 0 <= j < i ==> Writable(xs[j])
            invariant bytes == before + ObjsBytes(xs[..i])
          {
            var fine := SerializeObj(xs[i]);
            if !fine { return false; }
            ObjsBytesMore(xs, i);
            Assoc(before, ObjsBytes(xs[..i]), ObjBytes(xs[i]));
            i := i + 1;
          }
          assert xs[..i] == xs;
          Assoc4(start, [4], Num(|xs|, 8), ObjsBytes(xs));
      }
      return true;
    }

    method SerializeFuncMeta(fm: FuncMeta) returns (ok: bool)
      requires FuncSized(fm) && forall i :: 0 <= i < |fm.cstPool| ==> Fits(fm.cstPool[i]) && !HasNull(fm.cstPool[i])
      modifies this
      ensures ok <==> FuncFits(fm)
      ensures ok ==> bytes == old(bytes) + FuncBytes(fm) && AppendedFunc(old(bytes), bytes, fm)
    {
      hide Num, Fits, Writable, HasNull, AppendedObj, AppendedFunc;
      if FuncFits(fm) { FuncAppended(bytes, fm); }
      ghost var start := bytes;
      SerializeNum(fm.addr, 8);
      SerializeNum(fm.argNum, 8);
      SerializeNum(|fm.cstPool|, 8);
      ghost var before := bytes;
      var i := 0;
      while i < |fm.cstPool|
        invariant 0 <= i <= |fm.cstPool| && PoolFits(fm.cstPool[..i]) && bytes == before + ObjsBytesOf(fm.cstPool[..i])
      {
        var fine := SerializeObj(fm.cstPool[i]);
        if !fine { return false; }
        PoolMore(fm.cstPool, i);
        Assoc(before, ObjsBytesOf(fm.cstPool[..i]), ObjBytes(fm.cstPool[i]));
        i := i + 1;
      }
      assert fm.cstPool[..i] == fm.cstPool;
      ghost var pool := bytes;
      SerializeNum(|fm.names|, 8);
      ghost var counted := bytes;
      i := 0;
      while i < |fm.names|
        invariant 0 <= i <= |fm.names| && StrsFit(fm.names[..i]) && bytes == counted + StrsBytes(fm.names[..i])
      {
        SerializeString(fm.names[i]);
        StrsMore(fm.names, i);
        Assoc(counted, StrsBytes(fm.names[..i]), Str(fm.names[i]));
        i := i + 1;
      }
      assert fm.names[..i] == fm.names;
      FuncPieces(start, fm);
      return true;
    }

    /** Every function under its name, in the order of the enumeration. */
    method SerializeFile(es: seq<Entry>, code: seq<Instruction>)
      requires EntriesFit(es) && forall i :: 0 <= i < |es| ==> PoolWhole(es[i].1.cstPool)
      modifies this
      ensures bytes == old(bytes) + FileBytes(es, code) && AppendedFile(old(bytes), bytes, es, code)
    {
      hide Num, FuncFits, PoolWhole, FuncBytes, AppendedFunc, AppendedFile;
      FileAppended(bytes, es, code);
      ghost var start := bytes;
      Write(theLEECH);
      SerializeNum(|es|, 8);
      ghost var before := bytes;
      var i := 0;
      while i < |es|
        invariant 0 <= i <= |es| && EntriesFit(es[..i]) && bytes == before + EntriesBytes(es[..i])
      {
        SerializeString(es[i].0);
        FuncKept(es[i].1);
        var ok := SerializeFuncMeta(es[i].1);
        EntriesMore(es, i);
        Assoc4(before, EntriesBytes(es[..i]), Str(es[i].0), FuncBytes(es[i].1));
        i := i + 1;
      }
      assert es[..i] == es;
      SerializeNum(|code|, 8);
      ghost var counted := bytes;
      i := 0;
      while i < |code|
        invariant 0 <= i <= |code| && bytes == counted + CodeBytes(code[..i])
      {
        SerializeNum(code[i].opcode, 1);
        SerializeNum(code[i].arg, 1);
        CodeMore(code, i);
        OneByte(code[i].opcode);
        OneByte(code[i].arg);
        Assoc4(counted, CodeBytes(code[..i]), [code[i].opcode], [code[i].arg]);
        i := i + 1;
      }
      assert code[..i] == code;
      FilePieces(start, es, code);
    }
  }

  /** A missing object somewhere inside: there is nothing to write, and the machine would crash. */
  predicate HasNull(x: Obj) {
    match x
    case TupleObj(xs) => exists i :: 0 <= i < |xs| && HasNull(xs[i])
    case _ => x == NullObj
  }

  predicate FuncSized(fm: FuncMeta) {
    fm.addr < U64 && fm.argNum < U64 && |fm.cstPool| < U64 && |fm.names| < U64 && StrsFit(fm.names)
  }

  lemma {:induction false} WholeHasNoNull(x: Obj)
    ensures Whole(x) <==> !HasNull(x)
  {
    if x.TupleObj? {
      forall i | 0 <= i < |x.tuple| ensures Whole(x.tuple[i]) <==> !HasNull(x.tuple[i]) { WholeHasNoNull(x.tuple[i]); }
    }
  }

  lemma FuncKept(fm: FuncMeta)
    requires FuncFits(fm) && PoolWhole(fm.cstPool)
    ensures FuncSized(fm) && forall i :: 0 <= i < |fm.cstPool| ==> Fits(fm.cstPool[i]) && !HasNull(fm.cstPool[i])
  {
    forall i | 0 <= i < |fm.cstPool| ensures !HasNull(fm.cstPool[i]) { WholeHasNoNull(fm.cstPool[i]); }
  }

  lemma Assoc4(s: seq<Byte>, a: seq<Byte>, b: seq<Byte>, c: seq<Byte>)
    ensures s + a + b + c == s + (a + b + c)
    ensures s + a + (b + c) == s + (a + b + c)
  {
  }

  lemma {:induction false} ObjsBytesAdd(xs: seq<Obj>, ys: seq<Obj>)
    requires PoolFits(xs) && PoolFits(ys)
    ensures PoolFits(xs + ys) && ObjsBytes(xs + ys) == ObjsBytes(xs) + ObjsBytes(ys)
  {
    hide Fits, Writable, ObjBytes;
    if |xs| == 0 {
      assert xs + ys == ys;
    } else {
      assert (xs + ys)[1..] == xs[1..] + ys;
      ObjsBytesAdd(xs[1..], ys);
    }
  }

  lemma ObjsBytesMore(xs: seq<Obj>, i: nat)
    requires i < |xs| && forall j :: 0 <= j <= i ==> Fits(xs[j]) && Writable(xs[j])
    ensures PoolFits(xs[..i]) && PoolFits(xs[..i + 1])
    ensures ObjsBytes(xs[..i + 1]) == ObjsBytes(xs[..i]) + ObjBytes(xs[i])
  {
    hide Fits, Writable, ObjBytes;
    assert xs[..i + 1] == xs[..i] + [xs[i]];
    ObjsBytesAdd(xs[..i], [xs[i]]);
    assert [xs[i]][1..] == [];
    assert ObjsBytes([xs[i]]) == ObjBytes(xs[i]) + ObjsBytes([]);
  }

  lemma PoolMore(xs: seq<Obj>, i: nat)
    requires i < |xs| && PoolFits(xs[..i]) && Fits(xs[i]) && Writable(xs[i])
    ensures PoolFits(xs[..i + 1]) && ObjsBytesOf(xs[..i + 1]) == ObjsBytesOf(xs[..i]) + ObjBytes(xs[i])
  {
    hide Fits, Writable, ObjBytes, ObjsBytes;
    forall j | 0 <= j <= i ensures Fits(xs[j]) && Writable(xs[j]) { if j < i { assert xs[..i][j] == xs[j]; } }
    ObjsBytesMore(xs, i);
  }

  lemma {:induction false} StrsMore(names: seq<seq<Byte>>, i: nat)
    requires i < |names| && StrsFit(names)
    ensures StrsFit(names[..i]) && StrsFit(names[..i + 1]) && StrsBytes(names[..i + 1]) == StrsBytes(names[..i]) + Str(names[i])
  {
    hide Str;
    if i == 0 {
      assert names[..1][1..] == [];
    } else {
      StrsMore(names[1..], i - 1);
      assert names[..i + 1][1..] == names[1..][..i] && names[..i][1..] == names[1..][..i - 1];
    }
  }

  lemma {:induction false} EntriesMore(es: seq<Entry>, i: nat)
    requires i < |es| && EntriesFit(es)
    ensures EntriesFit(es[..i]) && EntriesFit(es[..i + 1])
    ensures EntriesBytes(es[..i + 1]) == EntriesBytes(es[..i]) + Str(es[i].0) + FuncBytes(es[i].1)
  {
    hide Str, FuncBytes, FuncFits;
    if i == 0 {
      assert es[..1][1..] == [];
    } else {
      EntriesMore(es[1..], i - 1);
      assert es[..i + 1][1..] == es[1..][..i] && es[..i][1..] == es[1..][..i - 1];
    }
  }

  lemma {:induction false} CodeMore(code: seq<Instruction>, i: nat)
    requires i < |code|
    ensures CodeBytes(code[..i + 1]) == CodeBytes(code[..i]) + [code[i].opcode] + [code[i].arg]
  {
    if i == 0 {
      assert code[..1][1..] == [];
    } else {
      CodeMore(code[1..], i - 1);
      assert code[..i + 1][1..] == code[1..][..i] && code[..i][1..] == code[1..][..i - 1];
    }
  }

  lemma FuncPieces(s: seq<Byte>, fm: FuncMeta)
    requires FuncFits(fm)
    ensures s + Num(fm.addr, 8) + Num(fm.argNum, 8) + Num(|fm.cstPool|, 8) + ObjsBytesOf(fm.cstPool)
      + Num(|fm.names|, 8) + StrsBytes(fm.names) == s + FuncBytes(fm)
  {
    hide Num, ObjsBytes, StrsBytes;
  }

  lemma FilePieces(s: seq<Byte>, es: seq<Entry>, code: seq<Instruction>)
    requires EntriesFit(es)
    ensures s + theLEECH + Num(|es|, 8) + EntriesBytes(es) + Num(|code|, 8) + CodeBytes(code) == s + FileBytes(es, code)
  {
    hide Num, EntriesBytes, CodeBytes;
  }

  // ----- Reading -----

  function Prepend<T>(pre: seq<T>, r: Read<seq<T>>): Read<seq<T>> {
    if r.Fail? then Fail else Got(pre + r.value, r.rest)
  }

  class InStream {
    var bytes: seq<Byte>

    constructor (bytes: seq<Byte>)
      ensures this.bytes == bytes
    {
      this.bytes := bytes;
    }

    method DeserializeNum(k: nat) returns (ok: bool, n: nat)
      modifies this
      ensures GetNum(old(bytes), k) == if ok then Got(n, bytes) else Fail
      ensures |bytes| <= |old(bytes)| && (ok && k > 0 ==> |bytes| < |old(bytes)|)
    {
      if |bytes| < k { return false, 0; }
      ok, n := true, Value(bytes[..k]);
      bytes := bytes[k..];
    }

    method DeserializeString(size: nat) returns (ok: bool, s: seq<Byte>)
      modifies this
      ensures GetStr(old(bytes), size) == if ok then Got(s, bytes) else Fail
      ensures |bytes| <= |old(bytes)|
    {
      if |bytes| < size { return false, []; }
      ok, s := true, bytes[..size];
      bytes := bytes[size..];
    }

    method DeserializeObj() returns (ok: bool, x: Obj)
      modifies this
      ensures GetObj(old(bytes)) == if ok then Got(x, bytes) else Fail
      decreases |bytes|, 1
    {
      hide GetNum, GetStr, GetObjs;
      var kind: nat;
      ok, kind := DeserializeNum(1);
      if !ok { return false, NullObj; }
      if kind == 1 || kind == 2 {
        var size: nat, n: nat;
        ok, size := DeserializeNum(8);
        if !ok { return false, NullObj; }
        ok, n := DeserializeNum(8);
        if !ok { return false, NullObj; }
        return true, if kind == 1 then IntegerObj(Signed(n)) else FloatObj(n);
      } else if kind == 3 {
        var size: nat, s: seq<Byte>;
        ok, size := DeserializeNum(8);
        if !ok { return false, NullObj; }
        ok, s := DeserializeString(size);
        if !ok { return false, NullObj; }
        return true, StringObj(s);
      } else if kind == 4 {
        var size: nat, xs: seq<Obj>;
        ok, size := DeserializeNum(8);
        if !ok { return false, NullObj; }
        ok, xs := DeserializeObjs(size);
        if !ok { return false, NullObj; }
        return true, TupleObj(xs);
      } else {
        return true, NullObj;
      }
    }

    method DeserializeObjs(len: nat) returns (ok: bool, xs: seq<Obj>)
      modifies this
      ensures GetObjs(old(bytes), len) == if ok then Got(xs, bytes) else Fail
      decreases |bytes|, 2
    {
      hide GetObj, GetObjs;
      xs := [];
      ghost var all := bytes;
      var i := 0;
      PrependNone(GetObjs(bytes, len));
      while i < len
        invariant 0 <= i <= len && |bytes| <= |all|
        invariant GetObjs(all, len) == Prepend(xs, GetObjs(bytes, len - i))
      {
        ObjsNext(bytes, len - i);
        ghost var before := bytes;
        var x: Obj;
        ok, x := DeserializeObj();
        if !ok { return false, []; }
        ObjShorter(before);
        PrependMore(xs, x, GetObjs(bytes, len - i - 1));
        xs := xs + [x];
        i := i + 1;
      }
      ObjsNext(bytes, 0);
      PrependLast(xs, bytes);
      return true, xs;
    }

    method DeserializeSized() returns (ok: bool, s: seq<Byte>)
      modifies this
      ensures GetSizedStr(old(bytes)) == if ok then Got(s, bytes) else Fail
    {
      hide GetNum, GetStr;
      var len: nat;
      ok, len := DeserializeNum(8);
      if !ok { return false, []; }
      ok, s := DeserializeString(len);
    }

    /** A function under its name: address, argument count, constants, names. */
    method DeserializeFuncMeta() returns (ok: bool, name: seq<Byte>, fm: FuncMeta)
      modifies this
      ensures GetFunc(old(bytes)) == if ok then Got((name, fm), bytes) else Fail
    {
      hide GetSizedStr, GetNum, GetObjs, GetStrs;
      var addr: nat, argNum: nat, cstNum: nat, cstPool: seq<Obj>, nameNum: nat;
      fm := FuncMeta(0, 0, [], []);
      ok, name := DeserializeSized();
      if !ok { return; }
      ok, addr := DeserializeNum(8);
      if !ok { return; }
      ok, argNum := DeserializeNum(8);
      if !ok { return; }
      ok, cstNum := DeserializeNum(8);
      if !ok { return; }
      ok, cstPool := DeserializeObjs(cstNum);
      if !ok { return; }
      ok, nameNum := DeserializeNum(8);
      if !ok { return; }
      var names: seq<seq<Byte>> := [];
      ghost var all := bytes;
      var i := 0;
      PrependNone(GetStrs(bytes, nameNum));
      while i < nameNum
        invariant 0 <= i <= nameNum && GetStrs(all, nameNum) == Prepend(names, GetStrs(bytes, nameNum - i))
      {
        StrsNext(bytes, nameNum - i);
        var s: seq<Byte>;
        ok, s := DeserializeSized();
        if !ok { return; }
        PrependMore(names, s, GetStrs(bytes, nameNum - i - 1));
        names := names + [s];
        i := i + 1;
      }
      StrsNext(bytes, 0);
      PrependLast(names, bytes);
      ok, fm := true, FuncMeta(addr, argNum, cstPool, names);
    }

    /** The map of functions, each copied into it. */
    method DeserializeMeta() returns (ok: bool, funcs: map<seq<Byte>, FuncMeta>)
      modifies this
      ensures GetMeta(old(bytes)) == if ok then Got(funcs, bytes) else Fail
    {
      hide GetNum, GetFunc, GetEntries, PoolWhole;
      var fnum: nat;
      funcs := map[];
      ok, fnum := DeserializeNum(8);
      if !ok { return; }
      ghost var all := bytes;
      var i := 0;
      while i < fnum
        invariant 0 <= i <= fnum && GetEntries(all, fnum, map[]) == GetEntries(bytes, fnum - i, funcs)
      {
        EntriesNext(bytes, fnum - i, funcs);
        var name: seq<Byte>, fm: FuncMeta;
        ok, name, fm := DeserializeFuncMeta();
        if !ok { return; }
        if !PoolWhole(fm.cstPool) { return false, map[]; }
        funcs := funcs[name := CopyInto(funcs, name, fm)];
        i := i + 1;
      }
      EntriesNext(bytes, 0, funcs);
      ok := true;
    }

    /** Reads back a file: what was written comes back as `FileBack` says. */
    method DeserializeFile(known: set<Byte>) returns (ok: bool, f: LeechFile)
      modifies this
      ensures GetFile(old(bytes), known) == if ok then Got(f, bytes) else Fail
    {
      hide GetNum, GetStr, GetEntries, GetCode;
      f := LeechFile(map[], []);
      var magic: seq<Byte>, funcs: map<seq<Byte>, FuncMeta>, instNum: nat;
      ok, magic := DeserializeString(8);
      if !ok || magic != theLEECH { return false, f; }
      ok, funcs := DeserializeMeta();
      if !ok { return; }
      ok, instNum := DeserializeNum(8);
      if !ok { return; }
      var code: seq<Instruction> := [];
      ghost var all := bytes;
      var i := 0;
      PrependNone(GetCode(bytes, instNum, known));
      while i < instNum
        invariant 0 <= i <= instNum && GetCode(all, instNum, known) == Prepend(code, GetCode(bytes, instNum - i, known))
      {
        CodeNext(bytes, instNum - i, known);
        if |bytes| < 2 || bytes[0] !in known { return false, f; }
        PrependMore(code, Instruction(bytes[0], bytes[1]), GetCode(bytes[2..], instNum - i - 1, known));
        code := code + [Instruction(bytes[0], bytes[1])];
        bytes := bytes[2..];
        i := i + 1;
      }
      CodeNext(bytes, 0, known);
      PrependLast(code, bytes);
      ok, f := true, LeechFile(funcs, code);
    }
  }

  function GetMeta(b: seq<Byte>): Read<map<seq<Byte>, FuncMeta>> {
    var n := GetNum(b, 8);
    if n.Fail? then Fail else GetEntries(n.rest, n.value, map[])
  }

  lemma PrependNone<T>(r: Read<seq<T>>)
    ensures Prepend([], r) == r
  {
    if r.Got? { assert [] + r.value == r.value; }
  }

  /** One more element in front of what is still to come. */
  lemma PrependMore<T>(pre: seq<T>, x: T, r: Read<seq<T>>)
    ensures Prepend(pre + [x], r) == Prepend(pre, Prepend([x], r))
  {
    if r.Got? { assert pre + [x] + r.value == pre + ([x] + r.value); }
  }

  lemma PrependLast<T>(pre: seq<T>, rest: seq<Byte>)
    ensures Prepend(pre, Got([], rest)) == Got(pre, rest)
  {
    assert pre + [] == pre;
  }

  function NextStrs(b: seq<Byte>, n: nat): Read<seq<seq<Byte>>>
    requires n > 0
  {
    var s := GetSizedStr(b);
    if s.Fail? then Fail else Prepend([s.value], GetStrs(s.rest, n - 1))
  }

  lemma StrsNext(b: seq<Byte>, n: nat)
    ensures GetStrs(b, n) == if n == 0 then Got([], b) else NextStrs(b, n)
  {
    hide GetSizedStr;
  }

  function NextObjs(b: seq<Byte>, n: nat): Read<seq<Obj>>
    requires n > 0
  {
    var x := GetObj(b);
    if x.Fail? then Fail else Prepend([x.value], GetObjs(x.rest, n - 1))
  }

  lemma ObjsNext(b: seq<Byte>, n: nat)
    ensures GetObjs(b, n) == if n == 0 then Got([], b) else NextObjs(b, n)
  {
    hide GetObj;
  }

  function NextEntries(b: seq<Byte>, n: nat, m: map<seq<Byte>, FuncMeta>): Read<map<seq<Byte>, FuncMeta>>
    requires n > 0
  {
    var f := GetFunc(b);
    if f.Fail? || !PoolWhole(f.value.1.cstPool) then Fail
    else GetEntries(f.rest, n - 1, m[f.value.0 := CopyInto(m, f.value.0, f.value.1)])
  }

  lemma EntriesNext(b: seq<Byte>, n: nat, m: map<seq<Byte>, FuncMeta>)
    ensures GetEntries(b, n, m) == if n == 0 then Got(m, b) else NextEntries(b, n, m)
  {
    hide GetFunc, PoolWhole;
  }

  function NextCode(b: seq<Byte>, n: nat, known: set<Byte>): Read<seq<Instruction>>
    requires n > 0
  {
    if |b| < 2 || b[0] !in known then Fail else Prepend([Instruction(b[0], b[1])], GetCode(b[2..], n - 1, known))
  }

  lemma CodeNext(b: seq<Byte>, n: nat, known: set<Byte>)
    ensures GetCode(b, n, known) == if n == 0 then Got([], b) else NextCode(b, n, known)
  {
  }

  lemma ObjShorter(b: seq<Byte>)
    ensures GetObj(b).Got? ==> |GetObj(b).rest| < |b|
  {
  }
}
