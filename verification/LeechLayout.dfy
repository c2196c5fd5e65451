/** The file format byte by byte: what bytes are an object, a function or a file. The writer's bytes are exactly
    these, and whatever has this layout is read as what it lays out. */
module LeechLayout {
  import opened LeechFormat
  import opened LeechFiles

  /** Eight bytes with `n` in them, least significant first. */
  predicate Little(b: seq<Byte>, n: nat) {
    && |b| == 8
    && b[0] == n % 256 && b[1] == n / 0x100 % 256
    && b[2] == n / 0x1_0000 % 256 && b[3] == n / 0x100_0000 % 256
    && b[4] == n / 0x1_0000_0000 % 256 && b[5] == n / 0x100_0000_0000 % 256
    && b[6] == n / 0x1_0000_0000_0000 % 256 && b[7] == n / 0x100_0000_0000_0000 % 256
  }

  /** The type, the size in eight bytes, then the value; negative numbers in two's complement. */
  predicate IsObj(b: seq<Byte>, x: Obj)
    decreases x, 0
  {
    match x
    case IntegerObj(v) => |b| == 17 && b[0] == 1 && Little(b[1..9], 8) && Little(b[9..], v % 0x1_0000_0000_0000_0000)
    case FloatObj(w) => |b| == 17 && b[0] == 2 && Little(b[1..9], 8) && Little(b[9..], w)
    case StringObj(s) => |b| >= 9 && b[0] == 3 && Little(b[1..9], |s|) && b[9..] == s
    case TupleObj(xs) => |b| >= 9 && b[0] == 4 && Little(b[1..9], |xs|) && AreObjs(b[9..], xs)
    case NoneObj => b == [6]
    case _ => false
  }

  /** The objects one behind the other. */
  predicate AreObjs(b: seq<Byte>, xs: seq<Obj>)
    decreases xs, 1
  {
    if |xs| == 0 then b == []
    else exists k :: 0 <= k <= |b| && IsObj(b[..k], xs[0]) && AreObjs(b[k..], xs[1..])
  }

  predicate IsStr(b: seq<Byte>, s: seq<Byte>) { |b| >= 8 && Little(b[..8], |s|) && b[8..] == s }

  predicate AreStrs(b: seq<Byte>, names: seq<seq<Byte>>) {
    if |names| == 0 then b == []
    else exists k :: 0 <= k <= |b| && IsStr(b[..k], names[0]) && AreStrs(b[k..], names[1..])
  }

  /** Address, argument count, the number of constants and the constants, the number of names and the names. */
  predicate IsFunc(b: seq<Byte>, fm: FuncMeta) {
    exists k ::
      && 24 <= k <= |b| - 8
      && Little(b[..8], fm.addr) && Little(b[8..16], fm.argNum) && Little(b[16..24], |fm.cstPool|)
      && AreObjs(b[24..k], fm.cstPool) && Little(b[k..k + 8], |fm.names|) && AreStrs(b[k + 8..], fm.names)
  }

  predicate AreEntries(b: seq<Byte>, es: seq<Entry>) {
    if |es| == 0 then b == []
    else
      exists j, k ::
        0 <= j <= k <= |b| && IsStr(b[..j], es[0].0) && IsFunc(b[j..k], es[0].1) && AreEntries(b[k..], es[1..])
  }

  /** Two bytes an instruction, the opcode first. */
  predicate IsCode(b: seq<Byte>, code: seq<Instruction>) {
    |b| == 2 * |code| && forall i :: 0 <= i < |code| ==> b[2 * i] == code[i].opcode && b[2 * i + 1] == code[i].arg
  }

  /** "theLEECH", the number of functions and the functions, the number of instructions and the instructions. */
  predicate IsFile(b: seq<Byte>, es: seq<Entry>, code: seq<Instruction>) {
    exists k ::
      && 16 <= k <= |b| - 8
      && b[..8] == [0x74, 0x68, 0x65, 0x4C, 0x45, 0x45, 0x43, 0x48] && Little(b[8..16], |es|)
      && AreEntries(b[16..k], es) && Little(b[k..k + 8], |code|) && IsCode(b[k + 8..], code)
  }

  // ----- The writer's bytes have the layout, and no others do -----

  /** The low four bytes and what is left. */
  lemma FourBytes(n: nat, k: nat)
    ensures Num(n, 4 + k) == [n % 256, n / 0x100 % 256, n / 0x1_0000 % 256, n / 0x100_0000 % 256] + Num(n / 0x1_0000_0000, k)
  {
    var a := n / 256;
    var b := a / 256;
    var c := b / 256;
    var d := c / 256;
    assert b == n / 0x1_0000 && c == n / 0x100_0000 && d == n / 0x1_0000_0000;
    assert Num(n, 4 + k) == [n % 256] + Num(a, 3 + k);
    assert Num(a, 3 + k) == [a % 256] + Num(b, 2 + k);
    assert Num(b, 2 + k) == [b % 256] + Num(c, 1 + k);
    assert Num(c, 1 + k) == [c % 256] + Num(d, k);
  }

  lemma LittleIff(b: seq<Byte>, n: nat)
    ensures Little(b, n) <==> b == Num(n, 8)
  {
    hide Num;
    FourBytes(n, 4);
    FourBytes(n / 0x1_0000_0000, 0);
    assert |Num(n / 0x1_0000_0000 / 0x1_0000_0000, 0)| == 0;
    assert n / 0x100_0000_0000 == n / 0x1_0000_0000 / 0x100;
    assert n / 0x1_0000_0000_0000 == n / 0x1_0000_0000 / 0x1_0000;
    assert n / 0x100_0000_0000_0000 == n / 0x1_0000_0000 / 0x100_0000;
  }

  /** Bytes that begin with type and size, and the same bytes as the writer puts them together. */
  lemma SizedIff(b: seq<Byte>, kind: Byte, size: nat, value: seq<Byte>)
    ensures |b| >= 9 && b[0] == kind && Little(b[1..9], size) && b[9..] == value <==> b == [kind] + Num(size, 8) + value
  {
    hide Num, Little;
    var whole := [kind] + Num(size, 8) + value;
    assert whole[1..9] == Num(size, 8) && whole[9..] == value;
    LittleIff(Num(size, 8), size);
    if |b| >= 9 {
      LittleIff(b[1..9], size);
      assert b == [b[0]] + b[1..9] + b[9..];
    }
  }

  lemma {:induction false} ObjIff(b: seq<Byte>, x: Obj)
    requires Fits(x)
    ensures IsObj(b, x) <==> Writable(x) && b == ObjBytes(x)
    decreases x, 0
  {
    hide Num, Little, AreObjs, ObjsBytes;
    match x
    case IntegerObj(v) =>
      SizedIff(b, 1, 8, Num(Unsigned(v), 8));
      if |b| == 17 { LittleIff(b[9..], Unsigned(v)); }
    case FloatObj(w) =>
      SizedIff(b, 2, 8, Num(w, 8));
      if |b| == 17 { LittleIff(b[9..], w); }
    case StringObj(s) =>
      SizedIff(b, 3, |s|, s);
    case TupleObj(xs) =>
      if |b| >= 9 { ObjsIff(b[9..], xs); }
      if Writable(x) { SizedIff(b, 4, |xs|, ObjsBytes(xs)); }
    case _ =>
  }

  lemma {:induction false} ObjsIff(b: seq<Byte>, xs: seq<Obj>)
    requires forall i :: 0 <= i < |xs| ==> Fits(xs[i])
    ensures AreObjs(b, xs) <==> (forall i :: 0 <= i < |xs| ==> Writable(xs[i])) && b == ObjsBytes(xs)
    decreases xs, 1
  {
    hide Fits, Writable, IsObj, ObjBytes;
    if |xs| > 0 {
      forall k | 0 <= k <= |b|
        ensures IsObj(b[..k], xs[0]) <==> Writable(xs[0]) && b[..k] == ObjBytes(xs[0])
        ensures AreObjs(b[k..], xs[1..]) <==> (forall i :: 0 <= i < |xs[1..]| ==> Writable(xs[1..][i])) && b[k..] == ObjsBytes(xs[1..])
      {
        ObjIff(b[..k], xs[0]);
        ObjsIff(b[k..], xs[1..]);
      }
      Headed(xs, Writable);
      if AreObjs(b, xs) {
        var k :| 0 <= k <= |b| && IsObj(b[..k], xs[0]) && AreObjs(b[k..], xs[1..]);
        assert b == b[..k] + b[k..];
      }
      if (forall i :: 0 <= i < |xs| ==> Writable(xs[i])) && b == ObjsBytes(xs) {
        var k := |ObjBytes(xs[0])|;
        assert b[..k] == ObjBytes(xs[0]) && b[k..] == ObjsBytes(xs[1..]);
        assert IsObj(b[..k], xs[0]) && AreObjs(b[k..], xs[1..]);
      }
    }
  }

  lemma StrIff(b: seq<Byte>, s: seq<Byte>)
    ensures IsStr(b, s) <==> b == Str(s)
  {
    hide Num, Little;
    if |b| >= 8 {
      LittleIff(b[..8], |s|);
      assert b == b[..8] + b[8..];
    }
    LittleIff(Num(|s|, 8), |s|);
    assert Str(s)[..8] == Num(|s|, 8) && Str(s)[8..] == s;
  }

  lemma {:induction false} StrsIff(b: seq<Byte>, names: seq<seq<Byte>>)
    requires StrsFit(names)
    ensures AreStrs(b, names) <==> b == StrsBytes(names)
  {
    hide IsStr, Str;
    if |names| > 0 {
      forall k | 0 <= k <= |b|
        ensures IsStr(b[..k], names[0]) <==> b[..k] == Str(names[0])
        ensures AreStrs(b[k..], names[1..]) <==> b[k..] == StrsBytes(names[1..])
      {
        StrIff(b[..k], names[0]);
        StrsIff(b[k..], names[1..]);
      }
      if AreStrs(b, names) {
        var k :| 0 <= k <= |b| && IsStr(b[..k], names[0]) && AreStrs(b[k..], names[1..]);
        assert b == b[..k] + b[k..];
      }
      if b == StrsBytes(names) {
        var k := |Str(names[0])|;
        assert b[..k] == Str(names[0]) && b[k..] == StrsBytes(names[1..]);
      }
    }
  }

  /** `b` falls into a number, a number, a number, a middle, a number and an end. */
  lemma FuncCuts(b: seq<Byte>, fm: FuncMeta, k: nat)
    requires FuncFits(fm) && 24 <= k <= |b| - 8
    ensures
      (&& Little(b[..8], fm.addr) && Little(b[8..16], fm.argNum) && Little(b[16..24], |fm.cstPool|)
       && AreObjs(b[24..k], fm.cstPool) && Little(b[k..k + 8], |fm.names|) && AreStrs(b[k + 8..], fm.names))
      <==> b == FuncBytes(fm) && k == 24 + |ObjsBytes(fm.cstPool)|
  {
    hide Num, Little, AreObjs, AreStrs, ObjsBytes, StrsBytes, Fits, Writable;
    LittleIff(b[..8], fm.addr);
    LittleIff(b[8..16], fm.argNum);
    LittleIff(b[16..24], |fm.cstPool|);
    ObjsIff(b[24..k], fm.cstPool);
    LittleIff(b[k..k + 8], |fm.names|);
    StrsIff(b[k + 8..], fm.names);
    SixParts(b, Num(fm.addr, 8), Num(fm.argNum, 8), Num(|fm.cstPool|, 8), ObjsBytes(fm.cstPool), Num(|fm.names|, 8),
             StrsBytes(fm.names), k);
  }

  lemma SixParts(b: seq<Byte>, x: seq<Byte>, y: seq<Byte>, z: seq<Byte>, m: seq<Byte>, n: seq<Byte>, e: seq<Byte>, k: nat)
    requires |x| == 8 && |y| == 8 && |z| == 8 && |n| == 8 && 24 <= k <= |b| - 8
    ensures b[..8] == x && b[8..16] == y && b[16..24] == z && b[24..k] == m && b[k..k + 8] == n && b[k + 8..] == e
      <==> b == x + (y + (z + (m + (n + e)))) && k == 24 + |m|
  {
    var t := b[8..];
    FiveParts(t, y, z, m, n, e, k - 8);
    assert t[..8] == b[8..16] && t[8..16] == b[16..24] && t[16..k - 8] == b[24..k];
    assert t[k - 8..k] == b[k..k + 8] && t[k..] == b[k + 8..];
    assert b == b[..8] + t;
  }

  lemma FuncIff(b: seq<Byte>, fm: FuncMeta)
    requires FuncFits(fm)
    ensures IsFunc(b, fm) <==> b == FuncBytes(fm)
  {
    hide Num, Little, AreObjs, AreStrs, ObjsBytes, StrsBytes, Fits, Writable, FuncFits, FuncBytes;
    if IsFunc(b, fm) {
      var k :|
        && 24 <= k <= |b| - 8
        && Little(b[..8], fm.addr) && Little(b[8..16], fm.argNum) && Little(b[16..24], |fm.cstPool|)
        && AreObjs(b[24..k], fm.cstPool) && Little(b[k..k + 8], |fm.names|) && AreStrs(b[k + 8..], fm.names);
      FuncCuts(b, fm, k);
    }
    if b == FuncBytes(fm) {
      PoolEndInside(fm);
      FuncCuts(b, fm, PoolEnd(fm));
    }
  }

  function PoolEnd(fm: FuncMeta): nat
    requires FuncFits(fm)
  {
    24 + |ObjsBytes(fm.cstPool)|
  }

  lemma PoolEndInside(fm: FuncMeta)
    requires FuncFits(fm)
    ensures 24 <= PoolEnd(fm) <= |FuncBytes(fm)| - 8
  {
    hide Num, ObjsBytes, StrsBytes;
  }

  lemma EntriesCuts(b: seq<Byte>, es: seq<Entry>, j: nat, k: nat)
    requires EntriesFit(es) && |es| > 0 && j <= k <= |b|
    ensures IsStr(b[..j], es[0].0) && IsFunc(b[j..k], es[0].1) && AreEntries(b[k..], es[1..])
      <==> b == EntriesBytes(es) && j == |Str(es[0].0)| && k == j + |FuncBytes(es[0].1)|
    decreases es, 0
  {
    hide IsStr, Str, IsFunc, FuncBytes, FuncFits;
    StrIff(b[..j], es[0].0);
    FuncIff(b[j..k], es[0].1);
    EntriesIff(b[k..], es[1..]);
    ThreeParts(b, Str(es[0].0), FuncBytes(es[0].1), EntriesBytes(es[1..]), j, k);
  }

  lemma ThreeParts(b: seq<Byte>, x: seq<Byte>, y: seq<Byte>, z: seq<Byte>, j: nat, k: nat)
    requires j <= k <= |b|
    ensures b[..j] == x && b[j..k] == y && b[k..] == z <==> b == x + y + z && j == |x| && k == j + |y|
  {
    assert b == b[..j] + b[j..k] + b[k..];
  }

  lemma {:induction false} EntriesIff(b: seq<Byte>, es: seq<Entry>)
    requires EntriesFit(es)
    ensures AreEntries(b, es) <==> b == EntriesBytes(es)
    decreases es, 1
  {
    hide IsStr, Str, IsFunc, FuncBytes, FuncFits;
    if |es| > 0 {
      if AreEntries(b, es) {
        var j, k :| 0 <= j <= k <= |b| && IsStr(b[..j], es[0].0) && IsFunc(b[j..k], es[0].1) && AreEntries(b[k..], es[1..]);
        EntriesCuts(b, es, j, k);
      }
      if b == EntriesBytes(es) {
        var j := |Str(es[0].0)|;
        EntriesCuts(b, es, j, j + |FuncBytes(es[0].1)|);
      }
    }
  }

  lemma {:induction false} CodeIff(b: seq<Byte>, code: seq<Instruction>)
    ensures IsCode(b, code) <==> b == CodeBytes(code)
    decreases code
  {
    if |code| > 0 {
      var tail := code[1..];
      if |b| >= 2 {
        CodeIff(b[2..], tail);
        assert b == [b[0], b[1]] + b[2..];
      } else {
        CodeIff([], tail);
      }
      if IsCode(b, code) {
        assert b[2 * 0] == code[0].opcode;
        forall i | 0 <= i < |tail| ensures b[2..][2 * i] == tail[i].opcode && b[2..][2 * i + 1] == tail[i].arg {
          assert tail[i] == code[i + 1] && b[2 * (i + 1)] == code[i + 1].opcode;
        }
      }
      if b == CodeBytes(code) {
        assert b[2..] == CodeBytes(tail);
        forall i | 0 <= i < |code| ensures b[2 * i] == code[i].opcode && b[2 * i + 1] == code[i].arg {
          if i > 0 { assert code[i] == tail[i - 1] && b[2 * i] == b[2..][2 * (i - 1)]; }
        }
      }
    }
  }

  lemma FileCuts(b: seq<Byte>, es: seq<Entry>, code: seq<Instruction>, k: nat)
    requires EntriesFit(es) && 16 <= k <= |b| - 8
    ensures
      (&& b[..8] == [0x74, 0x68, 0x65, 0x4C, 0x45, 0x45, 0x43, 0x48] && Little(b[8..16], |es|)
       && AreEntries(b[16..k], es) && Little(b[k..k + 8], |code|) && IsCode(b[k + 8..], code))
      <==> b == FileBytes(es, code) && k == EntriesEnd(es)
  {
    hide Num, Little, AreEntries, EntriesBytes, IsCode, CodeBytes, EntriesFit;
    LittleIff(b[8..16], |es|);
    EntriesIff(b[16..k], es);
    LittleIff(b[k..k + 8], |code|);
    CodeIff(b[k + 8..], code);
    FiveParts(b, theLEECH, Num(|es|, 8), EntriesBytes(es), Num(|code|, 8), CodeBytes(code), k);
  }

  lemma FiveParts(b: seq<Byte>, x: seq<Byte>, y: seq<Byte>, m: seq<Byte>, n: seq<Byte>, e: seq<Byte>, k: nat)
    requires |x| == 8 && |y| == 8 && |n| == 8 && 16 <= k <= |b| - 8
    ensures b[..8] == x && b[8..16] == y && b[16..k] == m && b[k..k + 8] == n && b[k + 8..] == e
      <==> b == x + (y + (m + (n + e))) && k == 16 + |m|
  {
    assert b == b[..8] + (b[8..16] + (b[16..k] + (b[k..k + 8] + b[k + 8..])));
  }

  function EntriesEnd(es: seq<Entry>): nat
    requires EntriesFit(es)
  {
    16 + |EntriesBytes(es)|
  }

  lemma EntriesEndInside(es: seq<Entry>, code: seq<Instruction>)
    requires EntriesFit(es)
    ensures 16 <= EntriesEnd(es) <= |FileBytes(es, code)| - 8
  {
    hide Num, EntriesBytes, CodeBytes;
  }

  lemma FileIff(b: seq<Byte>, es: seq<Entry>, code: seq<Instruction>)
    requires EntriesFit(es)
    ensures IsFile(b, es, code) <==> b == FileBytes(es, code)
  {
    hide Num, Little, AreEntries, EntriesBytes, IsCode, CodeBytes, EntriesFit, FileBytes;
    if IsFile(b, es, code) {
      var k :|
        && 16 <= k <= |b| - 8
        && b[..8] == [0x74, 0x68, 0x65, 0x4C, 0x45, 0x45, 0x43, 0x48] && Little(b[8..16], |es|)
        && AreEntries(b[16..k], es) && Little(b[k..k + 8], |code|) && IsCode(b[k + 8..], code);
      FileCuts(b, es, code, k);
    }
    if b == FileBytes(es, code) {
      EntriesEndInside(es, code);
      FileCuts(b, es, code, EntriesEnd(es));
    }
  }

  // ----- Reading what has the layout -----

  lemma ObjRead(b: seq<Byte>, x: Obj, rest: seq<Byte>)
    requires Fits(x) && IsObj(b, x)
    ensures GetObj(b + rest) == Got(Returned(x), rest)
  {
    ObjIff(b, x);
    ObjBack(x, rest);
  }

  /** Bytes with the layout of a file are read as that file, under the conditions of `FileBack`. */
  lemma FileRead(b: seq<Byte>, f: LeechFile, es: seq<Entry>, rest: seq<Byte>, known: set<Byte>)
    requires FileFits(f) && Enumerates(es, f.funcs) && |es| < U64 && IsFile(b, es, f.code)
    ensures GetFile(b + rest, known) == if Loadable(f, known) then Got(LeechFile(CopiedAll(f.funcs), f.code), rest) else Fail
  {
    hide GetFile, IsFile, FileBytes, EntriesFit, FileFits, Enumerates, Loadable, CopiedAll;
    FileBack(f, es, rest, known);
    FileIff(b, es, f.code);
  }

  /** An unknown type, None and class included, is a missing object of one byte. */
  lemma OtherKinds(b: seq<Byte>)
    requires |b| > 0 && (b[0] == 0 || b[0] > 4)
    ensures GetObj(b) == Got(NullObj, b[1..])
  {
    hide GetObjs, GetStr;
    assert b[..1] == [b[0]] && [b[0]][1..] == [];
    assert Value(b[..1]) == b[0] + 256 * Value([]);
  }

  // ----- What the writer appended -----

  predicate AppendedObj(before: seq<Byte>, after: seq<Byte>, x: Obj) { before <= after && IsObj(after[|before|..], x) }

  predicate AppendedFunc(before: seq<Byte>, after: seq<Byte>, fm: FuncMeta) { before <= after && IsFunc(after[|before|..], fm) }

  predicate AppendedFile(before: seq<Byte>, after: seq<Byte>, es: seq<Entry>, code: seq<Instruction>) {
    before <= after && IsFile(after[|before|..], es, code)
  }

  lemma ObjAppended(s: seq<Byte>, x: Obj)
    requires Fits(x) && Writable(x)
    ensures AppendedObj(s, s + ObjBytes(x), x)
  {
    hide ObjBytes, IsObj;
    assert (s + ObjBytes(x))[|s|..] == ObjBytes(x);
    ObjIff(ObjBytes(x), x);
  }

  lemma FuncAppended(s: seq<Byte>, fm: FuncMeta)
    requires FuncFits(fm)
    ensures AppendedFunc(s, s + FuncBytes(fm), fm)
  {
    hide FuncBytes, FuncFits, IsFunc;
    assert (s + FuncBytes(fm))[|s|..] == FuncBytes(fm);
    FuncIff(FuncBytes(fm), fm);
  }

  lemma FileAppended(s: seq<Byte>, es: seq<Entry>, code: seq<Instruction>)
    requires EntriesFit(es)
    ensures AppendedFile(s, s + FileBytes(es, code), es, code)
  {
    hide FileBytes, EntriesFit, IsFile;
    assert (s + FileBytes(es, code))[|s|..] == FileBytes(es, code);
    FileIff(FileBytes(es, code), es, code);
  }
}
