/** The byte interpreter: one command as a function on the machine, and the processor that runs it in place. */
module LangMachine {
  import opened LangSyntax
  import opened LangAssembler

  const RAM_SIZE := 3000
  const REGS := 10

  /** `stack` grows at its end. */
  datatype Machine = Machine(ip: int, stack: seq<Elem>, regs: seq<Elem>, ram: seq<Elem>)

  /** A command either goes on, ends the run, or has no meaning here: an empty stack, an address outside
      RAM, bytes outside the file, or an opcode that is not part of this model. */
  datatype Outcome = Next(m: Machine) | Halted(m: Machine) | Stuck

  datatype Place = NoPlace | RegPlace(i: nat) | RamPlace(address: int)

  /** The argument of push and pop: its value, and where it lives if it lives anywhere. */
  function GetArg(a: Arith, code: seq<Byte>, m: Machine): (Elem, Place)
    requires 0 <= m.ip && m.ip + 10 <= |code| && |m.regs| == REGS
  {
    var cmd := code[m.ip] as int;
    var r := code[m.ip + 9] as int;
    var reg := if r < REGS then m.regs[r] else ZERO;
    var imm, hasImm, hasReg, mem := code[m.ip + 1..m.ip + 9], cmd / 32 % 2 == 1, cmd / 64 % 2 == 1, cmd / 128 == 1;
    var val: Elem := if hasImm && hasReg then a.add(imm, reg) else if hasImm then imm else if hasReg then reg else ZERO;
    (val, if mem then RamPlace(a.toInt(val)) else if hasReg && !hasImm then RegPlace(r) else NoPlace)
  }

  /** The command names a register the machine does not have. */
  predicate BadRegister(code: seq<Byte>, ip: int)
    requires 0 <= ip && ip + 10 <= |code|
  {
    code[ip] / 64 % 2 == 1 && code[ip + 9] >= REGS
  }

  /** Two operands are on the stack. */
  predicate HasTwo(m: Machine) { |m.stack| >= 2 }

  function Top(m: Machine): Elem
    requires |m.stack| > 0
  {
    m.stack[|m.stack| - 1]
  }

  function Under(m: Machine): Elem
    requires |m.stack| > 1
  {
    m.stack[|m.stack| - 2]
  }

  function Dropped(m: Machine, n: nat): seq<Elem>
    requires n <= |m.stack|
  {
    m.stack[..|m.stack| - n]
  }

  /** The destination minus one, as the source has it; the loop adds the one. */
  function LabelPos(a: Arith, code: seq<Byte>, ip: int): int
    requires 0 <= ip && ip + 10 <= |code|
  {
    a.toInt(a.sub(code[ip + 1..ip + 9], a.ofInt(1)))
  }

  function StepPush(a: Arith, code: seq<Byte>, m: Machine): Outcome
    requires 0 <= m.ip && m.ip + 10 <= |code| && |m.regs| == REGS && |m.ram| == RAM_SIZE
  {
    var (val, place) := GetArg(a, code, m);
    match place
    case NoPlace => Next(m.(stack := m.stack + [val], ip := m.ip + 10))
    case RegPlace(i) => if i < REGS then Next(m.(stack := m.stack + [m.regs[i]], ip := m.ip + 10)) else Stuck
    case RamPlace(i) => if 0 <= i < RAM_SIZE then Next(m.(stack := m.stack + [m.ram[i]], ip := m.ip + 10)) else Stuck
  }

  function StepPop(a: Arith, code: seq<Byte>, m: Machine): Outcome
    requires 0 <= m.ip && m.ip + 10 <= |code| && |m.regs| == REGS && |m.ram| == RAM_SIZE
  {
    var (_, place) := GetArg(a, code, m);
    if place.NoPlace? then Next(m.(ip := m.ip + 10))
    else if m.stack == [] then Stuck
    else
      var m' := m.(stack := Dropped(m, 1), ip := m.ip + 10);
      match place
      case RegPlace(i) => if i < REGS then Next(m'.(regs := m.regs[i := Top(m)])) else Stuck
      case RamPlace(i) => if 0 <= i < RAM_SIZE then Next(m'.(ram := m.ram[i := Top(m)])) else Stuck
  }

  /** An arithmetic command on the stack: the first operand popped is the left one. */
  function ArithmeticStack(a: Arith, op: Byte, stack: seq<Elem>): seq<Elem>
    requires |stack| >= if op == CommandCode(SqrC) then 1 else 2
  {
    var n, x := |stack|, stack[|stack| - 1];
    if op == CommandCode(SqrC) then stack[..n - 1] + [a.sqrt(x)]
    else
      stack[..n - 2] + [if op == CommandCode(MulC) then a.mul(x, stack[n - 2])
                        else if op == CommandCode(AddC) then a.add(x, stack[n - 2])
                        else if op == CommandCode(SubC) then a.sub(x, stack[n - 2]) else a.div(x, stack[n - 2])]
  }

  predicate IsArithmetic(op: Byte) {
    op == CommandCode(MulC) || op == CommandCode(AddC) || op == CommandCode(SubC) || op == CommandCode(DivC)
    || op == CommandCode(SqrC)
  }

  /** The command at `ip`, and the loop's own increment. */
  function Step(a: Arith, code: seq<Byte>, m: Machine): Outcome
    requires |m.regs| == REGS && |m.ram| == RAM_SIZE
  {
    if m.ip < 0 || m.ip >= |code| then Stuck
    else
      var op := code[m.ip] % 32;
      var long := m.ip + 10 <= |code|;
      if op == CommandCode(HltC) then Halted(m)
      else if op == PUSH then if long && !BadRegister(code, m.ip) then StepPush(a, code, m) else Stuck
      else if op == POP then if long && !BadRegister(code, m.ip) then StepPop(a, code, m) else Stuck
      else if IsArithmetic(op) then
        if |m.stack| >= if op == CommandCode(SqrC) then 1 else 2
        then Next(m.(stack := ArithmeticStack(a, op, m.stack), ip := m.ip + 1)) else Stuck
      else if op == JumpCode(Call) then
        if long then Next(m.(stack := m.stack + [a.ofInt(m.ip + 9)], ip := LabelPos(a, code, m.ip) + 1)) else Stuck
      else if op == CommandCode(RetC) then
        if m.stack == [] then Halted(m) else Next(m.(stack := Dropped(m, 1), ip := a.toInt(Top(m)) + 1))
      else if op == JumpCode(Jmp) then if long then Next(m.(ip := LabelPos(a, code, m.ip) + 1)) else Stuck
      else if op == JumpCode(Je) || op == JumpCode(Jne) then
        if long && HasTwo(m) then
          var taken := a.eq(Top(m), Under(m)) == (op == JumpCode(Je));
          Next(m.(stack := Dropped(m, 2), ip := if taken then LabelPos(a, code, m.ip) + 1 else m.ip + 10))
        else Stuck
      else if op == CommandCode(EndC) then Next(m.(ip := m.ip + 1))
      else Stuck
  }

  /** At most `n` commands, as long as `ip` is before the end of the program. */
  function Run(a: Arith, code: seq<Byte>, amount: int, m: Machine, n: nat): Outcome
    requires |m.regs| == REGS && |m.ram| == RAM_SIZE
    decreases n
  {
    if n == 0 then Next(m)
    else if m.ip >= amount then Halted(m)
    else
      match Step(a, code, m)
      case Next(m') => Run(a, code, amount, m', n - 1)
      case o => o
  }

  lemma StepKeepsSizes(a: Arith, code: seq<Byte>, m: Machine)
    requires |m.regs| == REGS && |m.ram| == RAM_SIZE
    ensures Step(a, code, m).Next? ==> |Step(a, code, m).m.regs| == REGS && |Step(a, code, m).m.ram| == RAM_SIZE
  {
  }

  lemma RunStep(a: Arith, code: seq<Byte>, amount: int, m: Machine, n: nat)
    requires |m.regs| == REGS && |m.ram| == RAM_SIZE
    ensures Run(a, code, amount, m, 0) == Next(m)
    ensures n > 0 && m.ip >= amount ==> Run(a, code, amount, m, n) == Halted(m)
    ensures n > 0 && m.ip < amount && !Step(a, code, m).Next? ==> Run(a, code, amount, m, n) == Step(a, code, m)
    ensures n > 0 && m.ip < amount && Step(a, code, m).Next? ==>
      var m' := Step(a, code, m).m;
      |m'.regs| == REGS && |m'.ram| == RAM_SIZE && Run(a, code, amount, m, n) == Run(a, code, amount, m', n - 1)
  {
    StepKeepsSizes(a, code, m);
  }

  /** How a command of the processor ended. */
  datatype Status = GoOn | Stop | Fault

  class Processor {
    const a: Arith
    const cmds: seq<Byte>
    const cmdsAmount: int
    const regs: array<Elem>
    const ram: array<Elem>
    var stack: seq<Elem>

    /** Registers and RAM start as zeros; the program length comes from the header. */
    constructor (a: Arith, code: seq<Byte>)
      requires |code| >= HEADER
      ensures Valid() && fresh(regs) && fresh(ram) && this.a == a && cmds == code && cmdsAmount == IntAt(code, 4)
      ensures At(HEADER) == Machine(HEADER, [], seq(REGS, _ => ZERO), seq(RAM_SIZE, _ => ZERO))
    {
      this.a, cmds, cmdsAmount := a, code, IntAt(code, 4);
      regs := new Elem[REGS](_ => ZERO);
      ram := new Elem[RAM_SIZE](_ => ZERO);
      stack := [];
    }

    predicate Valid() { regs != ram && regs.Length == REGS && ram.Length == RAM_SIZE }

    ghost function At(ip: int): Machine
      reads this, regs, ram
    {
      Machine(ip, stack, regs[..], ram[..])
    }

    method StackPush(v: Elem)
      modifies this`stack
      ensures stack == old(stack) + [v]
    {
      stack := stack + [v];
    }

    method StackPop() returns (v: Elem)
      requires |stack| > 0
      modifies this`stack
      ensures v == old(stack)[|old(stack)| - 1] && stack == old(stack)[..|old(stack)| - 1]
    {
      v := stack[|stack| - 1];
      stack := stack[..|stack| - 1];
    }

    /** Value and place of the argument of the push or pop at `ip`. */
    method Argument(ip: int) returns (val: Elem, place: Place)
      requires Valid() && 0 <= ip && ip + 10 <= |cmds| && !BadRegister(cmds, ip)
      ensures (val, place) == GetArg(a, cmds, At(ip))
    {
      var cmd := cmds[ip];
      var regIndex := cmds[ip + 9];
      val, place := ZERO, NoPlace;
      if cmd / 32 % 2 == 1 { val := cmds[ip + 1..ip + 9]; }
      if cmd / 64 % 2 == 1 && cmd / 32 % 2 == 1 { val := a.add(val, regs[regIndex]); }
      if cmd / 64 % 2 == 1 && cmd / 32 % 2 != 1 {
        place := RegPlace(regIndex);
        val := regs[regIndex];
      }
      if cmd / 128 == 1 { place := RamPlace(a.toInt(val)); }
    }

    method DoPush(ip: int) returns (ok: bool)
      requires Valid() && 0 <= ip && ip + 10 <= |cmds| && !BadRegister(cmds, ip)
      modifies this`stack
      ensures StepPush(a, cmds, old(At(ip))) == if ok then Next(At(ip + 10)) else Stuck
    {
      hide GetArg;
      var val, place := Argument(ip);
      ok := true;
      match place
      case NoPlace => StackPush(val);
      case RegPlace(i) => if i < REGS { StackPush(regs[i]); } else { ok := false; }
      case RamPlace(i) => if 0 <= i < RAM_SIZE { StackPush(ram[i]); } else { ok := false; }
    }

    method DoPop(ip: int) returns (ok: bool)
      requires Valid() && 0 <= ip && ip + 10 <= |cmds| && !BadRegister(cmds, ip)
      modifies this`stack, regs, ram
      ensures StepPop(a, cmds, old(At(ip))) == if ok then Next(At(ip + 10)) else Stuck
    {
      hide GetArg;
      var val, place := Argument(ip);
      if place.NoPlace? { return true; }
      if stack == [] { return false; }
      var v := StackPop();
      ok := true;
      match place
      case RegPlace(i) => if i < REGS { regs[i] := v; } else { ok := false; }
      case RamPlace(i) => if 0 <= i < RAM_SIZE { ram[i] := v; } else { ok := false; }
    }

    method DoArithmetic(op: Byte) returns (ok: bool)
      requires Valid() && IsArithmetic(op)
      modifies this`stack
      ensures ok == (|old(stack)| >= if op == CommandCode(SqrC) then 1 else 2)
      ensures ok ==> stack == ArithmeticStack(a, op, old(stack))
    {
      if op == CommandCode(SqrC) {
        if |stack| < 1 { return false; }
        var x := StackPop();
        StackPush(a.sqrt(x));
      } else {
        if |stack| < 2 { return false; }
        var x := StackPop();
        var y := StackPop();
        StackPush(if op == CommandCode(MulC) then a.mul(x, y) else if op == CommandCode(AddC) then a.add(x, y)
                  else if op == CommandCode(SubC) then a.sub(x, y) else a.div(x, y));
      }
      ok := true;
    }

    /** Runs one command; `ip` is left one before the next command, for the loop to increment. */
    method ProcessCommand(at: int) returns (status: Status, ip: int)
      requires Valid()
      modifies this`stack, regs, ram
      ensures Step(a, cmds, old(At(at))) ==
        match status case GoOn => Next(At(ip + 1)) case Stop => Halted(At(ip)) case Fault => Stuck
    {
      hide StepPush, StepPop, GetArg, BadRegister, LabelPos;
      status, ip := GoOn, at;
      if at < 0 || at >= |cmds| { return Fault, ip; }
      var op := cmds[at] % 32;
      var long := at + 10 <= |cmds|;
      if op == CommandCode(HltC) { return Stop, ip; }
      if op == PUSH || op == POP {
        if !long || BadRegister(cmds, at) { return Fault, ip; }
        var ok;
        if op == PUSH { ok := DoPush(at); } else { ok := DoPop(at); }
        if !ok { return Fault, ip; }
        ip := at + 9;
      } else if IsArithmetic(op) {
        var ok := DoArithmetic(op);
        if !ok { return Fault, ip; }
      } else if op == JumpCode(Call) {
        if !long { return Fault, ip; }
        StackPush(a.ofInt(at + 9));
        ip := LabelPos(a, cmds, at);
      } else if op == CommandCode(RetC) {
        if |stack| == 0 { return Stop, ip; }
        var back := StackPop();
        ip := a.toInt(back);
      } else if op == JumpCode(Jmp) {
        if !long { return Fault, ip; }
        ip := LabelPos(a, cmds, at);
      } else if op == JumpCode(Je) || op == JumpCode(Jne) {
        if !long || |stack| < 2 { return Fault, ip; }
        var x := StackPop();
        var y := StackPop();
        if a.eq(x, y) == (op == JumpCode(Je)) {
          ip := LabelPos(a, cmds, at);
        } else {
          ip := at + 9;
        }
      } else if op != CommandCode(EndC) {
        return Fault, ip;
      }
    }

    /** The main loop, cut off after `n` commands. */
    method Execute(n: nat) returns (status: Status, ip: int)
      requires Valid()
      modifies this`stack, regs, ram
      ensures Run(a, cmds, cmdsAmount, old(At(HEADER)), n) ==
        match status case GoOn => Next(At(ip)) case Stop => Halted(At(ip)) case Fault => Stuck
    {
      hide Step, Run;
      ip := HEADER;
      var k := n;
      ghost var m0 := At(HEADER);
      while k > 0
        invariant 0 <= k <= n
        invariant Run(a, cmds, cmdsAmount, m0, n) == Run(a, cmds, cmdsAmount, At(ip), k)
      {
        RunStep(a, cmds, cmdsAmount, At(ip), k);
        if ip >= cmdsAmount { return Stop, ip; }
        status, ip := ProcessCommand(ip);
        if !status.GoOn? { return; }
        ip := ip + 1;
        k := k - 1;
      }
      RunStep(a, cmds, cmdsAmount, At(ip), 0);
      status := GoOn;
    }
  }
}
