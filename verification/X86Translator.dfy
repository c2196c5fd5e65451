/** The translator as it runs: addresses and labels are filled into the command records, then every command
    is written into the output buffer by stores that may overlap what comes next. */
module X86Translator {
  import opened X86Encoding
  import opened X86Layout

  const BUFFER := 8192

  /** The low bytes of a wide store are the low bytes of the number. */
  lemma {:induction false} LowPrefix(n: nat, k: nat, m: nat)
    requires k <= m
    ensures Low(n, k) == Low(n, m)[..k]
    decreases m
  {
    if k > 0 {
      LowPrefix(n / 256, k - 1, m - 1);
      assert Low(n, m)[..k] == [n % 256] + Low(n / 256, m - 1)[..k - 1];
    }
  }

  class Translator {
    const cmds: array<Command>
    const content: array<Byte>
    /** Conversion of a number to a RAM offset. */
    const offset: Offset
    var len: nat
    var x86IpCounter: nat

    constructor (cmds: seq<Command>, offset: Offset)
      ensures Valid() && this.cmds[..] == cmds && this.offset == offset && len == 0
      ensures fresh(this.cmds) && fresh(content)
    {
      this.cmds := new Command[|cmds|](i requires 0 <= i < |cmds| => cmds[i]);
      content := new Byte[BUFFER](_ => 0);
      this.offset, len, x86IpCounter := offset, 0, 0;
    }

    predicate Valid()
      reads this
    {
      content.Length == BUFFER && len <= BUFFER && (cmds as object) != (content as object)
    }

    function Written(): seq<Byte>
      requires Valid()
      reads this, content
    {
      content[..len]
    }

    /** Addresses of all commands that are not skipped. */
    method FillCmdIp()
      requires Valid()
      modifies cmds, this`x86IpCounter
      ensures Valid() && Addressed(cmds[..]) && x86IpCounter == X86At(cmds[..], cmds.Length)
      ensures forall k :: 0 <= k < cmds.Length ==> SameButAddresses(old(cmds[k]), cmds[k])
      ensures forall k :: 0 <= k < cmds.Length && old(cmds[k]).isSkip ==> cmds[k] == old(cmds[k])
    {
      hide NativeAt, X86At;
      ghost var start := cmds[..];
      var nativeIp, x86Ip := HEADER, 0;
      var i := 0;
      AddressesBegin(start);
      while i < cmds.Length
        invariant 0 <= i <= cmds.Length && nativeIp == NativeAt(start, i) && x86Ip == X86At(start, i)
        invariant forall k :: 0 <= k < cmds.Length ==> SameButAddresses(start[k], cmds[k])
        invariant forall k :: 0 <= k < cmds.Length && (k >= i || start[k].isSkip) ==> cmds[k] == start[k]
        invariant forall k :: 0 <= k < i && !start[k].isSkip ==>
          cmds[k].nativeIp == NativeAt(start, k) && cmds[k].x86Ip == X86At(start, k)
      {
        AddressesStep(start, i);
        if !cmds[i].isSkip {
          cmds[i] := cmds[i].(nativeIp := nativeIp, x86Ip := x86Ip);
          nativeIp := nativeIp + cmds[i].nativeSize;
          x86Ip := x86Ip + cmds[i].x86Size;
        }
        i := i + 1;
      }
      x86IpCounter := x86Ip;
      forall k | 0 <= k <= cmds.Length ensures NativeAt(start, k) == NativeAt(cmds[..], k) && X86At(start, k) == X86At(cmds[..], k) {
        SameAddresses(start, cmds[..], k);
      }
    }

    /** The x86 address of the first command with a native address; -1 if there is none. */
    method FindJumpIp(nativeIp: int) returns (x86Ip: int)
      ensures x86Ip == Found(cmds[..], nativeIp)
    {
      var i := 0;
      while i < cmds.Length
        invariant 0 <= i <= cmds.Length && Found(cmds[..], nativeIp) == Found(cmds[i..], nativeIp)
      {
        assert cmds[i..][0] == cmds[i] && cmds[i..][1..] == cmds[i + 1..];
        if cmds[i].nativeIp == nativeIp { return cmds[i].x86Ip; }
        i := i + 1;
      }
      x86Ip := -1;
    }

    method FillJumpLabels()
      requires Valid()
      modifies cmds
      ensures Valid()
      ensures forall k :: 0 <= k < cmds.Length ==>
        cmds[k] == if IsJump(old(cmds[k]).name) then old(cmds[k]).(target := Found(old(cmds[..]), old(cmds[k]).target))
                   else old(cmds[k])
    {
      hide IsJump;
      ghost var start := cmds[..];
      var i := 0;
      while i < cmds.Length
        invariant 0 <= i <= cmds.Length
        invariant forall k :: 0 <= k < i ==>
          cmds[k] == if IsJump(start[k].name) then start[k].(target := Found(start, start[k].target)) else start[k]
        invariant forall k :: i <= k < cmds.Length ==> cmds[k] == start[k]
      {
        if IsJump(cmds[i].name) {
          var x86Ip := FindJumpIp(cmds[i].target);
          FoundSame(start, cmds[..], cmds[i].target);
          cmds[i] := cmds[i].(target := x86Ip);
        }
        i := i + 1;
      }
    }

    /** An eight-byte store of which `size` bytes are kept. */
    method WriteCmd(code: nat, size: nat)
      requires Valid() && len + 8 <= BUFFER && size <= 8
      modifies content, this`len
      ensures Valid() && Written() == old(Written()) + Low(code, size)
    {
      var bytes := Low(code, 8);
      forall i | 0 <= i < 8 { content[len + i] := bytes[i]; }
      LowPrefix(code, size, 8);
      len := len + size;
    }

    method WriteDoubleNum(value: Double)
      requires Valid() && len + 8 <= BUFFER
      modifies content, this`len
      ensures Valid() && Written() == old(Written()) + value
    {
      forall i | 0 <= i < 8 { content[len + i] := value[i]; }
      len := len + 8;
    }

    method WritePtr(ptr: nat)
      requires Valid() && len + 8 <= BUFFER
      modifies content, this`len
      ensures Valid() && Written() == old(Written()) + Low(ptr, 4)
    {
      var bytes := Low(ptr, 4);
      forall i | 0 <= i < 4 { content[len + i] := bytes[i]; }
      len := len + 4;
    }

    method ConvertNumber()
      requires Valid() && len + 48 <= BUFFER
      modifies content, this`len
      ensures Valid() && Written() == old(Written()) + OutNumber()
    {
      hide Low;
      ghost var was := Written();
      WriteCmd(XMM0_FROM_STACK, 6);
      WriteCmd(0xF02D0F48F2, 5);
      WriteCmd(0x56, 1);
      WriteCmd(0x58, 1);
      WriteCmd(0x505152535241, 6);
      assert Written() == was + OutNumber();
    }

    method RestoreAll()
      requires Valid() && len + 17 <= BUFFER
      modifies content, this`len
      ensures Valid() && Written() == old(Written()) + OutEnd()
    {
      hide Low;
      ghost var was := Written();
      WriteCmd(0xE4894C, 3);
      WriteCmd(0x5A415B5A5958, 6);
      WriteCmd(0x5F, 1);
      assert Written() == was + OutEnd();
    }

    method TranslateOut(c: Command)
      requires Valid() && len + 48 <= BUFFER
      modifies content, this`len
      ensures Valid() && Written() == old(Written()) + Out(c, x86IpCounter)
    {
      hide Low, OutNumber, OutEnd;
      ghost var was := Written();
      OutNumberSize();
      ConvertNumber();
      WriteCmd(0xE48949, 3);
      WriteCmd(0xF0E48348, 4);
      WriteCmd(0xE8, 1);
      WritePtr((x86IpCounter - c.x86Ip - 27 - 4) % WORD);
      RestoreAll();
      assert Written() == was + Out(c, x86IpCounter);
    }

    method TranslateIn(c: Command)
      requires Valid() && len + 48 <= BUFFER
      modifies content, this`len
      ensures Valid() && Written() == old(Written()) + In(c, x86IpCounter)
    {
      hide Low;
      ghost var was := Written();
      WriteCmd(0x505152535241, 6);
      WriteCmd(0xE8, 1);
      WritePtr((x86IpCounter - c.x86Ip - 7 - 4 + PRINTF_LEN) % WORD);
      WriteCmd(0x5A415B5A5958, 6);
      WriteCmd(0x56, 1);
      assert Written() == was + In(c, x86IpCounter);
    }

    method TranslateMovRegNum(c: Command)
      requires Valid() && len + 48 <= BUFFER
      modifies content, this`len
      ensures Valid() && Written() == old(Written()) + Move(c)
    {
      hide Low;
      ghost var was := Written();
      WriteCmd(0x48 + (0xb8 + c.regIndex) * 0x100, 2);
      WriteDoubleNum(c.value);
      assert Written() == was + Move(c);
    }

    method TranslateSqr(c: Command)
      requires Valid() && len + 48 <= BUFFER
      modifies content, this`len
      ensures Valid() && Written() == old(Written()) + Root()
    {
      hide Low;
      ghost var was := Written();
      WriteCmd(XMM0_FROM_STACK, 6);
      WriteCmd(0xC0510F66, 4);
      WriteCmd(STACK_FROM_XMM0, 6);
      assert Written() == was + Root();
    }

    method TranslateBaseMath(c: Command)
      requires Valid() && len + 48 <= BUFFER
      modifies content, this`len
      ensures Valid() && Written() == old(Written()) + Math(c)
    {
      hide Low, MathMask;
      ghost var was := Written();
      WriteCmd(XMM0_FROM_STACK, 6);
      WriteCmd(XMM1_FROM_STACK_8, 6);
      WriteCmd(ADD_RSP_8, 4);
      WriteCmd(0xC1000FF2 + MathMask(c.name) * 0x1_0000, 4);
      WriteCmd(STACK_FROM_XMM0, 6);
      assert Written() == was + Math(c);
    }

    method TranslateConditionJmp(c: Command)
      requires Valid() && len + 48 <= BUFFER
      modifies content, this`len
      ensures Valid() && Written() == old(Written()) + Condition(c)
    {
      hide Low, ConditionMask;
      ghost var was := Written();
      WriteCmd(XMM0_FROM_STACK, 6);
      WriteCmd(XMM1_FROM_STACK_8, 6);
      WriteCmd(ADD_RSP_16, 4);
      WriteCmd(0xC12E0F66, 4);
      WriteCmd(0x0F + ConditionMask(c.name) * 0x100, 2);
      WritePtr((c.target - (c.x86Ip + 2 + 4 + 20)) % WORD);
      assert Written() == was + Condition(c);
    }

    method TranslateJmpCall(c: Command)
      requires Valid() && len + 48 <= BUFFER
      modifies content, this`len
      ensures Valid() && Written() == old(Written()) + Jump(c)
    {
      hide Low;
      ghost var was := Written();
      WriteCmd(if c.name == CALL then 0xE8 else 0xE9, 1);
      WritePtr((c.target - (c.x86Ip + 1 + 4)) % WORD);
      assert Written() == was + Jump(c);
    }

    method RegToRsiOffset(c: Command)
      requires Valid() && len + 48 <= BUFFER
      modifies content, this`len
      ensures Valid() && Written() == old(Written()) + RegToRsi(c)
    {
      hide Low;
      ghost var was := Written();
      WriteCmd(0x50 + c.regIndex, 1);
      WriteCmd(XMM0_FROM_STACK, 6);
      WriteCmd(ADD_RSP_8, 4);
      WriteCmd(0xF02D0F48F2, 5);
      WriteCmd(0x03E6C148, 4);
      assert Written() == was + RegToRsi(c);
    }

    method TranslatePushImmRam(c: Command)
      requires Valid() && len + 16 <= BUFFER
      modifies content, this`len
      ensures Valid() && Written() == old(Written()) + PushImmRam(offset(c.value))
    {
      hide Low;
      ghost var was := Written();
      WriteCmd(0xBA8B49, 3);
      WritePtr(offset(c.value));
      WriteCmd(0x57, 1);
      assert Written() == was + PushImmRam(offset(c.value));
    }

    method TranslatePopImmRam(c: Command)
      requires Valid() && len + 16 <= BUFFER
      modifies content, this`len
      ensures Valid() && Written() == old(Written()) + PopImmRam(offset(c.value))
    {
      hide Low;
      ghost var was := Written();
      WriteCmd(0x5F, 1);
      WriteCmd(0xBA8949, 3);
      WritePtr(offset(c.value));
      assert Written() == was + PopImmRam(offset(c.value));
    }

    method TranslatePushRegRam(c: Command)
      requires Valid() && len + 48 <= BUFFER
      modifies content, this`len
      ensures Valid() && Written() == old(Written()) + PushRegRam(c, offset(c.value))
    {
      hide Low, RegToRsi, PushImmRam;
      ghost var was := Written();
      RamSizes(c);
      RegToRsiOffset(c);
      WriteCmd(0xF20149, 3);
      TranslatePushImmRam(c);
      WriteCmd(0xF22949, 3);
      assert Written() == was + PushRegRam(c, offset(c.value));
    }

    method TranslatePopRegRam(c: Command)
      requires Valid() && len + 48 <= BUFFER
      modifies content, this`len
      ensures Valid() && Written() == old(Written()) + PopRegRam(c, offset(c.value))
    {
      hide Low, RegToRsi, PopImmRam;
      ghost var was := Written();
      RamSizes(c);
      RegToRsiOffset(c);
      WriteCmd(0xF20149, 3);
      TranslatePopImmRam(c);
      WriteCmd(0xF22949, 3);
      assert Written() == was + PopRegRam(c, offset(c.value));
    }

    method TranslatePushImm(c: Command)
      requires Valid() && len + 48 <= BUFFER
      modifies content, this`len
      ensures Valid() && Written() == old(Written()) + (Low(0xBE48, 2) + c.value + Low(0x56, 1))
    {
      hide Low;
      ghost var was := Written();
      WriteCmd(0xBE48, 2);
      WriteDoubleNum(c.value);
      WriteCmd(0x56, 1);
      assert Written() == was + (Low(0xBE48, 2) + c.value + Low(0x56, 1));
    }

    method HandlePushPopVariation(c: Command)
      requires Valid() && len + 48 <= BUFFER && (c.name == PUSH || c.name == POP)
      modifies content, this`len
      ensures Valid() && Written() == old(Written()) + PushPop(c, offset(c.value))
    {
      hide Low, PushRegRam, PopRegRam, PushImmRam, PopImmRam;
      if c.checksum == IMM {
        TranslatePushImm(c);
      } else if c.checksum == REG {
        WriteCmd((if c.name == PUSH then 0x50 else 0x58) + c.regIndex, 1);
      } else if c.checksum == IMM + RAM {
        if c.name == PUSH { TranslatePushImmRam(c); } else { TranslatePopImmRam(c); }
      } else if TouchesRam(c.checksum) {
        if c.name == PUSH { TranslatePushRegRam(c); } else { TranslatePopRegRam(c); }
      }
    }

    method TranslateCommand(c: Command)
      requires Valid() && len + 48 <= BUFFER
      modifies content, this`len
      ensures Valid() && Written() == old(Written()) + Encoding(c, x86IpCounter, offset(c.value))
    {
      hide Low, Out, In, Math, Condition, Jump, PushPop, Encoding, Move, Root;
      ghost var was := Written();
      EncodingCases(c, x86IpCounter, offset(c.value));
      if c.name == PUSH || c.name == POP {
        HandlePushPopVariation(c);
      } else if c.name == JMP || c.name == CALL {
        TranslateJmpCall(c);
      } else if IsCondition(c.name) {
        TranslateConditionJmp(c);
      } else if IsMath(c.name) {
        TranslateBaseMath(c);
      } else if c.name == SQR {
        TranslateSqr(c);
      } else if c.name == OUT {
        TranslateOut(c);
      } else if c.name == IN {
        TranslateIn(c);
      } else if c.name == RET {
        WriteCmd(0xC3, 1);
      } else if c.name == MOV_REG_NUM {
        TranslateMovRegNum(c);
      } else {
        WriteCmd(0x050fff31583c6a, 7);
      }
    }

    /** The header, then every command that is not skipped. */
    method StartTranslation()
      requires Valid() && len == 0 && (forall k :: 0 <= k < cmds.Length && !cmds[k].isSkip ==> Sized(cmds[k]))
      requires ENTRY + X86At(cmds[..], cmds.Length) + 48 <= BUFFER
      modifies content, this`len
      ensures Valid() && Written() == Emitted(cmds[..], x86IpCounter, offset, cmds.Length)
      ensures len == ENTRY + X86At(cmds[..], cmds.Length)
    {
      hide Low, Encoding, Emitted, ReservedSize, X86At;
      ghost var all := cmds[..];
      EmittedBegins(all, x86IpCounter, offset);
      WriteCmd(0xBA49, 2);
      WriteCmd(0x400078 + 6000, 8);
      var i := 0;
      while i < cmds.Length
        invariant 0 <= i <= cmds.Length && Valid() && Written() == Emitted(all, x86IpCounter, offset, i)
      {
        EmittedAt(all, x86IpCounter, offset, i);
        X86Grows(all, i, cmds.Length);
        EmittedStep(all, x86IpCounter, offset, i);
        if !cmds[i].isSkip { TranslateCommand(cmds[i]); }
        i := i + 1;
      }
      EmittedAt(all, x86IpCounter, offset, cmds.Length);
    }

    /** Layout and emission together: the code is the concatenation of the sized encodings, every jump, call and
        routine call in it arrives where it should, and a jump to the native address of a command arrives at the
        first byte of that command's code. */
    method Translate()
      requires Valid() && len == 0 && (forall k :: 0 <= k < cmds.Length && !cmds[k].isSkip ==> Sized(cmds[k]))
      requires ENTRY + X86At(cmds[..], cmds.Length) + 48 <= BUFFER
      modifies cmds, content, this
      ensures Valid() && Addressed(cmds[..]) && x86IpCounter == X86At(cmds[..], cmds.Length)
      ensures Written() == Emitted(cmds[..], x86IpCounter, offset, cmds.Length)
      ensures forall k :: 0 <= k < cmds.Length && IsJump(old(cmds[k]).name) ==>
        IsJump(cmds[k].name) && cmds[k].target == Found(cmds[..], old(cmds[k]).target)
      ensures forall i :: 0 <= i < cmds.Length && Leads(cmds[i], x86IpCounter) ==>
        ENTRY + X86At(cmds[..], i) + RelativeAt(cmds[i].name) + 4 <= |Written()|
        && GoesTo(cmds[..], x86IpCounter, offset, i) == Goal(cmds[i], x86IpCounter)
      ensures Unaddressed(old(cmds[..])) ==>
        forall i, j :: 0 <= i < cmds.Length && 0 <= j < cmds.Length ==> Lands(old(cmds[..]), cmds[..], x86IpCounter, offset, i, j)
    {
      hide Emitted, Encoding, ReservedSize, NativeAt, X86At, IsJump, Goal, GoesTo, RelativeAt, Found, Lands, Unaddressed;
      ghost var start := cmds[..];
      FillCmdIp();
      ghost var laid := cmds[..];
      FillJumpLabels();
      forall k | 0 <= k <= cmds.Length ensures NativeAt(laid, k) == NativeAt(cmds[..], k)
        && X86At(laid, k) == X86At(cmds[..], k) && X86At(start, k) == X86At(laid, k) {
        SameAddresses(laid, cmds[..], k);
        SameAddresses(start, laid, k);
      }
      StartTranslation();
      ghost var all := cmds[..];
      forall k | 0 <= k < cmds.Length && IsJump(start[k].name)
        ensures IsJump(all[k].name) && all[k].target == Found(all, start[k].target)
      {
        FoundSame(laid, all, start[k].target);
      }
      forall i | 0 <= i < cmds.Length && Leads(cmds[i], x86IpCounter)
        ensures ENTRY + X86At(all, i) + RelativeAt(all[i].name) + 4 <= |Written()|
        ensures GoesTo(all, x86IpCounter, offset, i) == Goal(all[i], x86IpCounter)
      {
        JumpsLand(all, x86IpCounter, offset, i);
      }
      if Unaddressed(start) {
        forall i, j | 0 <= i < cmds.Length && 0 <= j < cmds.Length ensures Lands(start, all, x86IpCounter, offset, i, j) {
          LandsThere(start, all, x86IpCounter, offset, i, j);
        }
      }
    }

    /** Merges a pushed number with the pop behind it. */
    method HandleImmStorage(i: nat) returns (merged: bool)
      requires Valid() && i + 1 < cmds.Length && cmds[i].name == PUSH && cmds[i].checksum == IMM
      modifies cmds
      ensures Valid() && merged == Mergeable(old(cmds[..]), i)
      ensures cmds[..] == if merged then Merged(old(cmds[..]), i) else old(cmds[..])
    {
      merged := cmds[i + 1].name == POP && cmds[i + 1].checksum == REG;
      if merged {
        cmds[i + 1] := cmds[i + 1].(name := MOV_REG_NUM, x86Size := 10, value := cmds[i].value);
        cmds[i] := cmds[i].(isSkip := true);
        cmds[i + 1] := cmds[i + 1].(nativeSize := cmds[i + 1].nativeSize + cmds[i].nativeSize);
      }
    }
  }

  /** The jump `i` of the commands before layout, if it goes to the native address of `j`, goes in the code to the
      first byte of `j`. */
  ghost predicate Lands(start: seq<Command>, all: seq<Command>, counter: nat, offset: Offset, i: nat, j: nat)
    requires |start| == |all| && i < |all| && j < |all|
  {
    IsJump(start[i].name) && !start[i].isSkip && !start[j].isSkip && start[i].target == NativeAt(start, j) ==>
      && ENTRY + X86At(all, i) + RelativeAt(all[i].name) + 4 <= |Emitted(all, counter, offset, |all|)|
      && GoesTo(all, counter, offset, i) == |Emitted(all, counter, offset, j)|
      && Emitted(all, counter, offset, j) <= Emitted(all, counter, offset, |all|)
  }

  /** Addresses and targets may differ; a skipped command keeps its address. */
  predicate SameShape(c: Command, d: Command) {
    && d.isSkip == c.isSkip && d.nativeSize == c.nativeSize && d.x86Size == c.x86Size && d.name == c.name
    && (c.isSkip ==> d.nativeIp == c.nativeIp)
  }

  /** Laid out and with its jumps filled in. */
  predicate Resolved(start: seq<Command>, all: seq<Command>) {
    && |start| == |all| && Addressed(all) && (forall k :: 0 <= k < |all| ==> SameShape(start[k], all[k]))
    && (forall k :: 0 <= k < |all| && IsJump(start[k].name) ==> all[k].target == Found(all, start[k].target))
  }

  lemma LandsThere(start: seq<Command>, all: seq<Command>, counter: nat, offset: Offset, i: nat, j: nat)
    requires Resolved(start, all) && Unaddressed(start) && AllSized(all) && i < |all| && j < |all|
    requires ENTRY + X86At(all, |all|) < WORD
    ensures Lands(start, all, counter, offset, i, j)
  {
    hide GoesTo, Emitted, Encoding, ReservedSize, RelativeAt, Found, Sized, NativeAt, X86At;
    forall k | 0 <= k <= |all| ensures NativeAt(start, k) == NativeAt(all, k) { SameAddresses(start, all, k); }
    if IsJump(start[i].name) && !start[i].isSkip && !start[j].isSkip && start[i].target == NativeAt(start, j) {
      X86Grows(all, j, |all|);
      JumpReaches(all, counter, offset, i, j);
      EmittedKeeps(all, counter, offset, j, |all|);
    }
  }

  /** A command that goes somewhere else, to an address that four bytes can hold. */
  predicate Leads(c: Command, counter: nat) {
    !c.isSkip && 0 <= Goal(c, counter) < WORD && (IsJump(c.name) || c.name == OUT || c.name == IN)
  }

  /** The x86 address of the first command with a native address. */
  function Found(cmds: seq<Command>, nativeIp: int): int {
    if cmds == [] then -1 else if cmds[0].nativeIp == nativeIp then cmds[0].x86Ip else Found(cmds[1..], nativeIp)
  }

  /** Labels being filled in do not matter to the search. */
  lemma {:induction false} FoundSame(a: seq<Command>, b: seq<Command>, nativeIp: int)
    requires |a| == |b| && forall k :: 0 <= k < |a| ==> a[k].nativeIp == b[k].nativeIp && a[k].x86Ip == b[k].x86Ip
    ensures Found(a, nativeIp) == Found(b, nativeIp)
  {
    if a != [] { FoundSame(a[1..], b[1..], nativeIp); }
  }

  /** A jump to the native address of a command finds that command's x86 address. */
  lemma {:induction false} TargetFound(cmds: seq<Command>, j: nat)
    requires Addressed(cmds) && j < |cmds| && !cmds[j].isSkip
    requires forall k :: 0 <= k < |cmds| ==> if cmds[k].isSkip then cmds[k].nativeIp == 0 else cmds[k].nativeSize > 0
    ensures Found(cmds, NativeAt(cmds, j)) == X86At(cmds, j)
  {
    hide Found;
    forall k | 0 <= k < j ensures cmds[k].nativeIp != NativeAt(cmds, j) {
      NativePositive(cmds, j);
      if !cmds[k].isSkip { NativeIncreases(cmds, k, j); }
    }
    FirstFound(cmds, j);
  }

  /** A jump to the native address of command `j` arrives, in the x86 code, at the first byte of command `j`. */
  lemma {:induction false} JumpReaches(cmds: seq<Command>, counter: nat, offset: Offset, i: nat, j: nat)
    requires i < |cmds| && j < |cmds| && !cmds[i].isSkip && !cmds[j].isSkip && IsJump(cmds[i].name)
    requires Addressed(cmds) && forall k :: 0 <= k < |cmds| && !cmds[k].isSkip ==> Sized(cmds[k])
    requires forall k :: 0 <= k < |cmds| ==> if cmds[k].isSkip then cmds[k].nativeIp == 0 else cmds[k].nativeSize > 0
    requires cmds[i].target == Found(cmds, NativeAt(cmds, j)) && ENTRY + X86At(cmds, j) < WORD
    ensures ENTRY + X86At(cmds, i) + RelativeAt(cmds[i].name) + 4 <= |Emitted(cmds, counter, offset, |cmds|)|
    ensures GoesTo(cmds, counter, offset, i) == ENTRY + X86At(cmds, j)
    ensures |Emitted(cmds, counter, offset, j)| == ENTRY + X86At(cmds, j)
  {
    hide GoesTo, Emitted, Encoding, ReservedSize, RelativeAt;
    TargetFound(cmds, j);
    JumpsLand(cmds, counter, offset, i);
    EmittedAt(cmds, counter, offset, j);
  }

  lemma {:induction false} FirstFound(cmds: seq<Command>, j: nat)
    requires j < |cmds| && forall k :: 0 <= k < j ==> cmds[k].nativeIp != cmds[j].nativeIp
    ensures Found(cmds, cmds[j].nativeIp) == cmds[j].x86Ip
  {
    if j > 0 { FirstFound(cmds[1..], j - 1); }
  }

  lemma {:induction false} NativePositive(cmds: seq<Command>, j: nat)
    requires j <= |cmds|
    ensures NativeAt(cmds, j) >= HEADER
  {
    if j > 0 { NativePositive(cmds, j - 1); }
  }

  lemma AddressesBegin(cmds: seq<Command>)
    ensures NativeAt(cmds, 0) == HEADER && X86At(cmds, 0) == 0
  {
  }

  lemma AddressesStep(cmds: seq<Command>, i: nat)
    requires i < |cmds|
    ensures NativeAt(cmds, i + 1) == NativeAt(cmds, i) + if cmds[i].isSkip then 0 else cmds[i].nativeSize
    ensures X86At(cmds, i + 1) == X86At(cmds, i) + if cmds[i].isSkip then 0 else cmds[i].x86Size
  {
  }

  lemma {:induction false} X86Grows(cmds: seq<Command>, i: nat, j: nat)
    requires i <= j <= |cmds|
    ensures X86At(cmds, i) <= X86At(cmds, j)
    decreases j
  {
    if i < j { X86Grows(cmds, i, j - 1); }
  }

  lemma EmittedBegins(cmds: seq<Command>, counter: nat, offset: Offset)
    ensures Emitted(cmds, counter, offset, 0) == Low(0xBA49, 2) + Low(0x400078 + 6000, 8)
  {
  }

  lemma EmittedStep(cmds: seq<Command>, counter: nat, offset: Offset, i: nat)
    requires i < |cmds|
    ensures Emitted(cmds, counter, offset, i + 1) ==
      if cmds[i].isSkip then Emitted(cmds, counter, offset, i)
      else Emitted(cmds, counter, offset, i) + Encoding(cmds[i], counter, offset(cmds[i].value))
  {
    hide Encoding;
  }

  lemma OutNumberSize()
    ensures |OutNumber()| == 19
  {
  }

  lemma EncodingCases(c: Command, counter: nat, offset: nat)
    ensures c.name == PUSH || c.name == POP ==> Encoding(c, counter, offset) == PushPop(c, offset)
    ensures c.name == JMP || c.name == CALL ==> Encoding(c, counter, offset) == Jump(c)
    ensures IsCondition(c.name) ==> Encoding(c, counter, offset) == Condition(c)
    ensures IsMath(c.name) ==> Encoding(c, counter, offset) == Math(c)
    ensures c.name == SQR ==> Encoding(c, counter, offset) == Root()
    ensures c.name == OUT ==> Encoding(c, counter, offset) == Out(c, counter)
    ensures c.name == IN ==> Encoding(c, counter, offset) == In(c, counter)
    ensures c.name == RET ==> Encoding(c, counter, offset) == Low(0xC3, 1)
    ensures c.name == MOV_REG_NUM ==> Encoding(c, counter, offset) == Move(c)
    ensures c.name == HLT ==> Encoding(c, counter, offset) == Low(0x050fff31583c6a, 7)
  {
    hide Low, Out, In, Math, Condition, Jump, PushPop, Move, Root;
  }

  lemma RamSizes(c: Command)
    ensures |RegToRsi(c)| == 20 && forall o: nat :: |PushImmRam(o)| == 8 && |PopImmRam(o)| == 8
  {
  }
}
