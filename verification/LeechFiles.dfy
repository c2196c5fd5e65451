/** Functions and whole files of the virtual machine, written and read back. */
module LeechFiles {
  import opened LeechFormat

  type Entry = (seq<Byte>, FuncMeta)

  // ----- Functions -----

  predicate StrsFit(names: seq<seq<Byte>>) { forall i :: 0 <= i < |names| ==> |names[i]| < U64 }

  predicate PoolFits(xs: seq<Obj>) { forall i :: 0 <= i < |xs| ==> Fits(xs[i]) && Writable(xs[i]) }

  predicate PoolPlain(xs: seq<Obj>) { forall i :: 0 <= i < |xs| ==> Plain(xs[i]) }

  predicate PoolWhole(xs: seq<Obj>) { forall i :: 0 <= i < |xs| ==> Whole(xs[i]) }

  /** Sizes and numbers have 64 bits, and there is no class among the constants. */
  predicate FuncFits(fm: FuncMeta) {
    && fm.addr < U64 && fm.argNum < U64 && |fm.cstPool| < U64 && |fm.names| < U64
    && PoolFits(fm.cstPool) && StrsFit(fm.names)
  }

  function StrsBytes(names: seq<seq<Byte>>): seq<Byte>
    requires StrsFit(names)
  {
    if |names| == 0 then [] else Str(names[0]) + StrsBytes(names[1..])
  }

  function FuncBytes(fm: FuncMeta): seq<Byte>
    requires FuncFits(fm)
  {
    Num(fm.addr, 8) + (Num(fm.argNum, 8) + (Num(|fm.cstPool|, 8) + (ObjsBytes(fm.cstPool)
      + (Num(|fm.names|, 8) + StrsBytes(fm.names)))))
  }

  function GetSizedStr(b: seq<Byte>): (r: Read<seq<Byte>>)
    ensures r.Got? ==> |r.rest| < |b|
  {
    var n := GetNum(b, 8);
    if n.Fail? then Fail else GetStr(n.rest, n.value)
  }

  function GetStrs(b: seq<Byte>, n: nat): (r: Read<seq<seq<Byte>>>)
    ensures r.Got? ==> |r.rest| <= |b|
  {
    if n == 0 then Got([], b)
    else
      var s := GetSizedStr(b);
      if s.Fail? then Fail
      else
        var more := GetStrs(s.rest, n - 1);
        if more.Fail? then Fail else Got([s.value] + more.value, more.rest)
  }

  /** The name and everything else about a function, in the order it was written. */
  function GetFunc(b: seq<Byte>): (r: Read<Entry>)
    ensures r.Got? ==> |r.rest| < |b|
  {
    var name := GetSizedStr(b);
    if name.Fail? then Fail
    else
      var fm := GetFuncMeta(name.rest);
      if fm.Fail? then Fail else Got((name.value, fm.value), fm.rest)
  }

  function GetFuncMeta(b: seq<Byte>): (r: Read<FuncMeta>)
    ensures r.Got? ==> |r.rest| <= |b|
  {
    var addr := GetNum(b, 8);
    if addr.Fail? then Fail
    else
      var argNum := GetNum(addr.rest, 8);
      if argNum.Fail? then Fail
      else
        var pool := GetPool(argNum.rest);
        if pool.Fail? then Fail
        else
          var names := GetNames(pool.rest);
          if names.Fail? then Fail
          else Got(FuncMeta(addr.value, argNum.value, pool.value, names.value), names.rest)
  }

  function GetPool(b: seq<Byte>): (r: Read<seq<Obj>>)
    ensures r.Got? ==> |r.rest| <= |b|
  {
    var n := GetNum(b, 8);
    if n.Fail? then Fail else GetObjs(n.rest, n.value)
  }

  function GetNames(b: seq<Byte>): (r: Read<seq<seq<Byte>>>)
    ensures r.Got? ==> |r.rest| <= |b|
  {
    var n := GetNum(b, 8);
    if n.Fail? then Fail else GetStrs(n.rest, n.value)
  }

  lemma Assoc(a: seq<Byte>, b: seq<Byte>, c: seq<Byte>)
    ensures a + b + c == a + (b + c)
  {
  }

  lemma SizedStrBack(s: seq<Byte>, rest: seq<Byte>)
    requires |s| < U64
    ensures GetSizedStr(Str(s) + rest) == Got(s, rest)
  {
    hide GetNum, GetStr, Num;
    Assoc(Num(|s|, 8), s, rest);
    NumBack(|s|, 8, s + rest);
    StrBack(s, rest);
  }

  lemma {:induction false} StrsBack(names: seq<seq<Byte>>, rest: seq<Byte>)
    requires StrsFit(names)
    ensures GetStrs(StrsBytes(names) + rest, |names|) == Got(names, rest)
  {
    hide GetSizedStr, Str;
    if |names| == 0 {
      assert StrsBytes(names) + rest == rest;
    } else {
      SizedStrBack(names[0], StrsBytes(names[1..]) + rest);
      StrsBack(names[1..], rest);
      Assoc(Str(names[0]), StrsBytes(names[1..]), rest);
      assert [names[0]] + names[1..] == names;
    }
  }

  /** A function comes back with its argument count; only its None constants are missing. */
  lemma FuncBack(name: seq<Byte>, fm: FuncMeta, rest: seq<Byte>)
    requires |name| < U64 && FuncFits(fm)
    ensures GetFunc(Str(name) + FuncBytes(fm) + rest) == Got((name, fm.(cstPool := ReturnedAll(fm.cstPool))), rest)
  {
    hide GetSizedStr, GetFuncMeta, Str, FuncBytes, FuncFits;
    Assoc(Str(name), FuncBytes(fm), rest);
    SizedStrBack(name, FuncBytes(fm) + rest);
    FuncMetaBack(fm, rest);
  }

  lemma FuncMetaBack(fm: FuncMeta, rest: seq<Byte>)
    requires FuncFits(fm)
    ensures GetFuncMeta(FuncBytes(fm) + rest) == Got(fm.(cstPool := ReturnedAll(fm.cstPool)), rest)
  {
    hide GetNum, Num, GetObjs, ObjsBytes, GetStrs, StrsBytes, PoolFits, StrsFit, ReturnedAll;
    ghost var strs := Num(|fm.names|, 8) + StrsBytes(fm.names);
    ghost var pool := Num(|fm.cstPool|, 8) + (ObjsBytesOf(fm.cstPool) + strs);
    ghost var args := Num(fm.argNum, 8) + pool;
    NumBack(fm.addr, 8, args + rest);
    NumBack(fm.argNum, 8, pool + rest);
    NumBack(|fm.cstPool|, 8, ObjsBytesOf(fm.cstPool) + (strs + rest));
    PoolBack(fm.cstPool, strs + rest);
    NumBack(|fm.names|, 8, StrsBytes(fm.names) + rest);
    StrsBack(fm.names, rest);
    Assoc(Num(fm.addr, 8), args, rest);
    Assoc(Num(fm.argNum, 8), pool, rest);
    Assoc(Num(|fm.cstPool|, 8), ObjsBytesOf(fm.cstPool) + strs, rest);
    Assoc(ObjsBytesOf(fm.cstPool), strs, rest);
    Assoc(Num(|fm.names|, 8), StrsBytes(fm.names), rest);
  }

  function ObjsBytesOf(xs: seq<Obj>): seq<Byte>
    requires PoolFits(xs)
  {
    ObjsBytes(xs)
  }

  lemma PoolBack(xs: seq<Obj>, rest: seq<Byte>)
    requires PoolFits(xs)
    ensures GetObjs(ObjsBytesOf(xs) + rest, |xs|) == Got(ReturnedAll(xs), rest)
  {
    ObjsBack(xs, rest);
  }

  // ----- Files -----

  predicate EntriesFit(es: seq<Entry>) { forall i :: 0 <= i < |es| ==> |es[i].0| < U64 && FuncFits(es[i].1) }

  function EntriesBytes(es: seq<Entry>): seq<Byte>
    requires EntriesFit(es)
  {
    if |es| == 0 then [] else Str(es[0].0) + FuncBytes(es[0].1) + EntriesBytes(es[1..])
  }

  function CodeBytes(code: seq<Instruction>): seq<Byte> {
    if |code| == 0 then [] else [code[0].opcode, code[0].arg] + CodeBytes(code[1..])
  }

  /** A file, its functions in the order the map enumerates them. */
  function FileBytes(es: seq<Entry>, code: seq<Instruction>): seq<Byte>
    requires EntriesFit(es)
  {
    theLEECH + (Num(|es|, 8) + (EntriesBytes(es) + (Num(|code|, 8) + CodeBytes(code))))
  }

  /** Reads functions into a map by copying: the copy takes address and names, adds the constants, which it
      cannot do if one is missing, and leaves the argument count alone. */
  function GetEntries(b: seq<Byte>, n: nat, m: map<seq<Byte>, FuncMeta>): Read<map<seq<Byte>, FuncMeta>>
    decreases n
  {
    if n == 0 then Got(m, b)
    else
      var f := GetFunc(b);
      if f.Fail? || !PoolWhole(f.value.1.cstPool) then Fail
      else GetEntries(f.rest, n - 1, m[f.value.0 := CopyInto(m, f.value.0, f.value.1)])
  }

  function CopyInto(m: map<seq<Byte>, FuncMeta>, name: seq<Byte>, fm: FuncMeta): FuncMeta {
    var into := if name in m then m[name] else FuncMeta(0, 0, [], []);
    FuncMeta(fm.addr, into.argNum, into.cstPool + fm.cstPool, fm.names)
  }

  /** An instruction can only be made of an opcode the machine knows. */
  function GetCode(b: seq<Byte>, n: nat, known: set<Byte>): Read<seq<Instruction>> {
    if n == 0 then Got([], b)
    else if |b| < 2 || b[0] !in known then Fail
    else
      var more := GetCode(b[2..], n - 1, known);
      if more.Fail? then Fail else Got([Instruction(b[0], b[1])] + more.value, more.rest)
  }

  function GetFile(b: seq<Byte>, known: set<Byte>): Read<LeechFile> {
    var magic := GetStr(b, 8);
    if magic.Fail? || magic.value != theLEECH then Fail
    else
      var n := GetNum(magic.rest, 8);
      if n.Fail? then Fail
      else
        var funcs := GetEntries(n.rest, n.value, map[]);
        if funcs.Fail? then Fail
        else
          var size := GetNum(funcs.rest, 8);
          if size.Fail? then Fail
          else
            var code := GetCode(size.rest, size.value, known);
            if code.Fail? then Fail else Got(LeechFile(funcs.value, code.value), code.rest)
  }

  predicate CodeKnown(code: seq<Instruction>, known: set<Byte>) { forall i :: 0 <= i < |code| ==> code[i].opcode in known }

  lemma {:induction false} CodeBack(code: seq<Instruction>, rest: seq<Byte>, known: set<Byte>)
    ensures GetCode(CodeBytes(code) + rest, |code|, known) == if CodeKnown(code, known) then Got(code, rest) else Fail
  {
    var b := CodeBytes(code) + rest;
    if |code| == 0 {
      assert b == rest;
    } else {
      CodeBack(code[1..], rest, known);
      assert b == [code[0].opcode, code[0].arg] + (CodeBytes(code[1..]) + rest);
      assert b[2..] == CodeBytes(code[1..]) + rest;
      assert code == [code[0]] + code[1..];
      if CodeKnown(code, known) {
        forall i | 0 <= i < |code[1..]| ensures code[1..][i].opcode in known { assert code[1..][i] == code[i + 1]; }
      }
      if code[0].opcode in known && CodeKnown(code[1..], known) {
        forall i | 0 <= i < |code| ensures code[i].opcode in known { if i > 0 { assert code[i] == code[1..][i - 1]; } }
      }
    }
  }

  predicate NamesDiffer(es: seq<Entry>) { forall i, j :: 0 <= i < j < |es| ==> es[i].0 != es[j].0 }

  predicate EntriesPlain(es: seq<Entry>) { forall i :: 0 <= i < |es| ==> PoolPlain(es[i].1.cstPool) }

  /** The argument count is what a copy loses. */
  function Copied(fm: FuncMeta): FuncMeta { fm.(argNum := 0) }

  function AddAll(m: map<seq<Byte>, FuncMeta>, es: seq<Entry>): map<seq<Byte>, FuncMeta>
    decreases es
  {
    if |es| == 0 then m else AddAll(m[es[0].0 := Copied(es[0].1)], es[1..])
  }

  lemma {:induction false} EntriesBack(es: seq<Entry>, m: map<seq<Byte>, FuncMeta>, rest: seq<Byte>)
    requires EntriesFit(es) && NamesDiffer(es) && forall i :: 0 <= i < |es| ==> es[i].0 !in m
    ensures GetEntries(EntriesBytes(es) + rest, |es|, m) == if EntriesPlain(es) then Got(AddAll(m, es), rest) else Fail
    decreases es
  {
    hide GetFunc, Str, FuncBytes, FuncFits, PoolWhole, PoolPlain, ReturnedAll;
    if |es| == 0 {
      assert EntriesBytes(es) + rest == rest;
    } else {
      var name, fm := es[0].0, es[0].1;
      FuncBack(name, fm, EntriesBytes(es[1..]) + rest);
      Assoc(Str(name) + FuncBytes(fm), EntriesBytes(es[1..]), rest);
      PoolReturns(fm);
      EntriesTail(es);
      if PoolPlain(fm.cstPool) {
        var m' := m[name := Copied(fm)];
        CopyFresh(m, name, fm);
        forall i | 0 <= i < |es[1..]| ensures es[1..][i].0 !in m' { assert es[1..][i] == es[i + 1]; }
        EntriesBack(es[1..], m', rest);
      }
    }
  }

  lemma CopyFresh(m: map<seq<Byte>, FuncMeta>, name: seq<Byte>, fm: FuncMeta)
    requires name !in m
    ensures CopyInto(m, name, fm) == Copied(fm)
  {
  }

  lemma PoolReturns(fm: FuncMeta)
    requires FuncFits(fm)
    ensures PoolWhole(ReturnedAll(fm.cstPool)) <==> PoolPlain(fm.cstPool)
    ensures PoolPlain(fm.cstPool) ==> ReturnedAll(fm.cstPool) == fm.cstPool
  {
    PlainAll(fm.cstPool);
  }

  lemma EntriesTail(es: seq<Entry>)
    requires |es| > 0 && EntriesFit(es) && NamesDiffer(es)
    ensures EntriesFit(es[1..]) && NamesDiffer(es[1..])
    ensures EntriesPlain(es) <==> PoolPlain(es[0].1.cstPool) && EntriesPlain(es[1..])
  {
    hide PoolPlain, FuncFits;
    forall i | 0 <= i < |es[1..]| ensures es[1..][i] == es[i + 1] {}
    if PoolPlain(es[0].1.cstPool) && EntriesPlain(es[1..]) {
      forall i | 0 <= i < |es| ensures PoolPlain(es[i].1.cstPool) { if i > 0 { assert es[i] == es[1..][i - 1]; } }
    }
    if EntriesPlain(es) {
      forall i | 0 <= i < |es[1..]| ensures PoolPlain(es[1..][i].1.cstPool) { assert es[1..][i] == es[i + 1]; }
    }
  }

  /** Some order in which the map is enumerated. */
  ghost predicate Enumerates(es: seq<Entry>, funcs: map<seq<Byte>, FuncMeta>) {
    && NamesDiffer(es)
    && (forall i :: 0 <= i < |es| ==> es[i].0 in funcs && funcs[es[i].0] == es[i].1)
    && (forall name :: name in funcs ==> exists i :: 0 <= i < |es| && es[i].0 == name)
  }

  function CopiedAll(funcs: map<seq<Byte>, FuncMeta>): map<seq<Byte>, FuncMeta> {
    map name | name in funcs :: Copied(funcs[name])
  }

  lemma {:induction false} AddAllHas(m: map<seq<Byte>, FuncMeta>, es: seq<Entry>)
    requires NamesDiffer(es)
    ensures var r := AddAll(m, es);
      && (forall i :: 0 <= i < |es| ==> es[i].0 in r && r[es[i].0] == Copied(es[i].1))
      && (forall name :: name in m && (forall i :: 0 <= i < |es| ==> es[i].0 != name) ==> name in r && r[name] == m[name])
      && (forall name :: name in r ==> name in m || exists i :: 0 <= i < |es| && es[i].0 == name)
    decreases es
  {
    if |es| > 0 {
      var m', tail := m[es[0].0 := Copied(es[0].1)], es[1..];
      forall i | 0 <= i < |tail| ensures tail[i] == es[i + 1] {}
      AddAllHas(m', tail);
      var r := AddAll(m', tail);
      forall i | 0 <= i < |es| ensures es[i].0 in r && r[es[i].0] == Copied(es[i].1) {
        if i > 0 { assert es[i] == tail[i - 1]; }
      }
      forall name | name in r && name !in m ensures exists i :: 0 <= i < |es| && es[i].0 == name {
        if name != es[0].0 {
          var i :| 0 <= i < |tail| && tail[i].0 == name;
          assert es[i + 1].0 == name;
        }
      }
    }
  }

  lemma AddAllEnumerated(es: seq<Entry>, funcs: map<seq<Byte>, FuncMeta>)
    requires Enumerates(es, funcs)
    ensures AddAll(map[], es) == CopiedAll(funcs)
  {
    AddAllHas(map[], es);
    var r := AddAll(map[], es);
    forall name | name in funcs ensures name in r && r[name] == Copied(funcs[name]) {
      var i :| 0 <= i < |es| && es[i].0 == name;
    }
  }

  predicate FileFits(f: LeechFile) {
    && |f.code| < U64 && forall name :: name in f.funcs ==> |name| < U64 && FuncFits(f.funcs[name])
  }

  /** Files the machine can load: no None among the constants, every opcode known. */
  predicate Loadable(f: LeechFile, known: set<Byte>) {
    CodeKnown(f.code, known) && forall name :: name in f.funcs ==> PoolPlain(f.funcs[name].cstPool)
  }

  lemma EnumeratedParts(es: seq<Entry>, f: LeechFile)
    requires FileFits(f) && Enumerates(es, f.funcs)
    ensures EntriesFit(es) && NamesDiffer(es)
    ensures EntriesPlain(es) <==> forall name :: name in f.funcs ==> PoolPlain(f.funcs[name].cstPool)
  {
    hide FuncFits, PoolPlain;
    if EntriesPlain(es) {
      forall name | name in f.funcs ensures PoolPlain(f.funcs[name].cstPool) {
        var i :| 0 <= i < |es| && es[i].0 == name;
      }
    }
  }

  /** Whatever the enumeration order: exactly the loadable files come back, with their argument counts zeroed. */
  lemma FileBack(f: LeechFile, es: seq<Entry>, rest: seq<Byte>, known: set<Byte>)
    requires FileFits(f) && Enumerates(es, f.funcs) && |es| < U64
    ensures EntriesFit(es)
    ensures GetFile(FileBytes(es, f.code) + rest, known)
      == if Loadable(f, known) then Got(LeechFile(CopiedAll(f.funcs), f.code), rest) else Fail
  {
    hide GetNum, Num, GetStr, GetEntries, EntriesBytes, GetCode, CodeBytes, FileFits, Enumerates, CodeKnown, EntriesPlain,
      AddAll, CopiedAll, PoolPlain;
    EnumeratedParts(es, f);
    AddAllEnumerated(es, f.funcs);
    FileSize(f);
    var code := Num(|f.code|, 8) + CodeBytes(f.code);
    var funcs := Num(|es|, 8) + (EntriesBytes(es) + code);
    Assoc(theLEECH, funcs, rest);
    StrBack(theLEECH, funcs + rest);
    Assoc(Num(|es|, 8), EntriesBytes(es) + code, rest);
    Assoc(EntriesBytes(es), code, rest);
    NumBack(|es|, 8, EntriesBytes(es) + (code + rest));
    EntriesBack(es, map[], code + rest);
    Assoc(Num(|f.code|, 8), CodeBytes(f.code), rest);
    NumBack(|f.code|, 8, CodeBytes(f.code) + rest);
    CodeBack(f.code, rest, known);
  }

  lemma FileSize(f: LeechFile)
    requires FileFits(f)
    ensures |f.code| < U64
  {
  }

  /** A loaded file is the file written exactly when no function took arguments. */
  lemma SameFileIff(f: LeechFile)
    ensures LeechFile(CopiedAll(f.funcs), f.code) == f <==> forall name :: name in f.funcs ==> f.funcs[name].argNum == 0
  {
    if LeechFile(CopiedAll(f.funcs), f.code) == f {
      forall name | name in f.funcs ensures f.funcs[name].argNum == 0 { assert CopiedAll(f.funcs)[name] == Copied(f.funcs[name]); }
    } else {
      assert CopiedAll(f.funcs).Keys == f.funcs.Keys;
      assert exists name :: name in f.funcs && CopiedAll(f.funcs)[name] != f.funcs[name];
    }
  }
}
