/**
  * The part of the eBPF machine that device filters use (RFC 9669: arithmetic in section 4.1, jumps in section 4.3,
  * loads in section 5.1). Jump targets are symbols, looked up in the program, as the assembler sees them.
  */
module Ebpf {
  import opened Words
  import opened Wrappers

  type Byte = n: nat | n < 256

  datatype Reg = R0 | R1 | R2 | R3 | R4 | R5 | R6 | R7 | R8 | R9 | R10

  datatype Size = Half | Word

  datatype Opcode =
    | LoadMem(dst: Reg, src: Reg, off: nat, size: Size)
    | RShImm32(dst: Reg, imm: Int32)
    | MovReg32(dst: Reg, src: Reg)
    | MovImm32(dst: Reg, imm: Int32)
    | AndImm32(dst: Reg, imm: Int32)
    | JNEImm(dst: Reg, imm: Int32, target: string)
    | JEqImm(dst: Reg, imm: Int32, target: string)
    | Exit
  {
    predicate IsJump() {
      JNEImm? || JEqImm?
    }
  }

  /** An instruction with the symbol that labels it, or "" when it has none. */
  datatype Instruction = Instruction(op: Opcode, symbol: string)
  {
    function WithSymbol(sym: string): Instruction {
      Instruction(op, sym)
    }
  }

  type Code = seq<Instruction>

  function Plain(op: Opcode): Instruction {
    Instruction(op, "")
  }

  /** A register holds the pointer to the request context or a 64-bit number. */
  datatype Value = Context | Number(n: nat)

  /** The registers that have been written; the others must not be read. */
  type Regs = map<Reg, Value>

  predicate HasNumber(regs: Regs, r: Reg) {
    r in regs && regs[r].Number?
  }

  datatype State = State(pc: nat, regs: Regs)

  datatype Why = EndOfCode | Unresolved(sym: string)

  /**
    * Running: out of fuel. Exited: the program returned. Stopped: control left the code, by running past its last
    * instruction or by jumping to a symbol that no instruction carries. Fault: an operation the machine refuses,
    * such as loading through a register that no longer holds the context pointer.
    */
  datatype Outcome = Running(s: State) | Exited(r0: nat) | Stopped(regs: Regs, why: Why) | Fault

  /** The index of the first instruction that carries the symbol. */
  function Lookup(code: Code, sym: string): Option<nat> {
    if code == [] then None
    else if code[0].symbol == sym then Some(0)
    else
      match Lookup(code[1..], sym)
      case None => None
      case Some(i) => Some(i + 1)
  }

  lemma {:induction false} LookupMeaning(code: Code, sym: string)
    ensures var r := Lookup(code, sym);
            && (r.Some? ==> r.value < |code| && code[r.value].symbol == sym)
            && (r.Some? ==> forall i :: 0 <= i < r.value ==> code[i].symbol != sym)
            && (r.None? ==> forall i :: 0 <= i < |code| ==> code[i].symbol != sym)
  {
    if code != [] {
      LookupMeaning(code[1..], sym);
      assert forall i :: 0 < i < |code| ==> code[i] == code[1..][i - 1];
    }
  }

  function ByteAt(mem: seq<Byte>, i: nat): (b: nat)
    requires i < |mem|
    ensures b < 256
  {
    mem[i]
  }

  /** A little-endian load from the context memory; None when it does not fit. */
  function Load(mem: seq<Byte>, off: nat, size: Size): Option<nat> {
    match size
    case Half =>
      if off + 2 > |mem| then None else Some(ByteAt(mem, off) + 0x100 * ByteAt(mem, off + 1))
    case Word =>
      if off + 4 > |mem| then None
      else Some(ByteAt(mem, off) + 0x100 * ByteAt(mem, off + 1)
                + 0x1_0000 * ByteAt(mem, off + 2) + 0x100_0000 * ByteAt(mem, off + 3))
  }

  /** A 32-bit immediate as a 64-bit operand: sign-extended. */
  function SignExtend(imm: Int32): nat {
    if imm < 0 then imm + TWO_64 else imm
  }

  /** A 32-bit immediate as a 32-bit operand. */
  function Low32(imm: Int32): nat {
    if imm < 0 then imm + TWO_32 else imm
  }

  function BitAnd(a: nat, b: nat): (r: nat)
    ensures r <= a
  {
    if a == 0 || b == 0 then 0 else (if a % 2 == 1 && b % 2 == 1 then 1 else 0) + 2 * BitAnd(a / 2, b / 2)
  }

  function BitOr(a: nat, b: nat): nat {
    if a == 0 then b else if b == 0 then a
    else (if a % 2 == 1 || b % 2 == 1 then 1 else 0) + 2 * BitOr(a / 2, b / 2)
  }

  function ShiftRight(x: nat, count: nat): nat {
    if count == 0 then x else ShiftRight(x / 2, count - 1)
  }

  /** The 32-bit logical shift right: the count is taken modulo 32 and the result is zero-extended. */
  function ShiftRight32(x: nat, imm: Int32): nat {
    ShiftRight(x % TWO_32, imm % 32)
  }

  /** The 32-bit bitwise and with an immediate: the result is zero-extended. */
  function And32(x: nat, imm: Int32): nat {
    BitAnd(x % TWO_32, Low32(imm))
  }

  /** The registers after an instruction that neither jumps nor exits; None when the machine refuses it. */
  function Compute(op: Opcode, mem: seq<Byte>, regs: Regs): Option<Regs>
    requires !op.IsJump() && !op.Exit?
  {
    match op
    case LoadMem(dst, src, off, size) =>
      if src !in regs || regs[src] != Context || Load(mem, off, size) == None then None
      else Some(regs[dst := Number(Load(mem, off, size).value)])
    case RShImm32(dst, imm) =>
      if !HasNumber(regs, dst) then None else Some(regs[dst := Number(ShiftRight32(regs[dst].n, imm))])
    case MovReg32(dst, src) =>
      if !HasNumber(regs, src) then None else Some(regs[dst := Number(regs[src].n % TWO_32)])
    case MovImm32(dst, imm) =>
      Some(regs[dst := Number(Low32(imm))])
    case AndImm32(dst, imm) =>
      if !HasNumber(regs, dst) then None
      else Some(regs[dst := Number(And32(regs[dst].n, imm))])
  }

  /** Whether a conditional jump is taken: 64-bit comparison with a sign-extended immediate. */
  function Taken(op: Opcode, regs: Regs): Option<bool>
    requires op.IsJump()
  {
    if !HasNumber(regs, op.dst) then None
    else if op.JNEImm? then Some(regs[op.dst].n != SignExtend(op.imm))
    else Some(regs[op.dst].n == SignExtend(op.imm))
  }

  function Branch(code: Code, s: State, taken: bool, target: string): Outcome {
    if !taken then Running(State(s.pc + 1, s.regs))
    else
      match Lookup(code, target)
      case Some(i) => Running(State(i, s.regs))
      case None => Stopped(s.regs, Unresolved(target))
  }

  /** One instruction. */
  function Step(code: Code, mem: seq<Byte>, s: State): Outcome
    requires s.pc < |code|
  {
    var op := code[s.pc].op;
    if op.Exit? then
      if HasNumber(s.regs, R0) then Exited(s.regs[R0].n) else Fault
    else if op.IsJump() then
      match Taken(op, s.regs)
      case None => Fault
      case Some(taken) => Branch(code, s, taken, op.target)
    else
      match Compute(op, mem, s.regs)
      case None => Fault
      case Some(regs) => Running(State(s.pc + 1, regs))
  }

  /** At most fuel instructions from s. */
  function Run(code: Code, mem: seq<Byte>, s: State, fuel: nat): Outcome
    decreases fuel
  {
    if s.pc >= |code| then Stopped(s.regs, EndOfCode)
    else if fuel == 0 then Running(s)
    else
      match Step(code, mem, s)
      case Running(t) => Run(code, mem, t, fuel - 1)
      case other => other
  }

  /** The machine as the kernel starts it: R1 points to the request, nothing else is set. */
  function Start(): State {
    State(0, map[R1 := Context])
  }

  // ----- Runs of concatenated code -----

  lemma {:induction false} LookupAppend(p: Code, q: Code, sym: string)
    ensures Lookup(p + q, sym) ==
            if Lookup(p, sym).Some? then Lookup(p, sym)
            else if Lookup(q, sym).Some? then Some(|p| + Lookup(q, sym).value) else None
  {
    if p == [] {
      assert p + q == q;
    } else {
      assert (p + q)[1..] == p[1..] + q;
      LookupAppend(p[1..], q, sym);
    }
  }

  /** More fuel does not change a run that has ended. */
  lemma {:induction false} RunMoreFuel(code: Code, mem: seq<Byte>, s: State, n: nat, m: nat)
    requires n <= m && !Run(code, mem, s, n).Running?
    ensures Run(code, mem, s, m) == Run(code, mem, s, n)
    decreases n
  {
    if s.pc < |code| && n > 0 {
      var o := Step(code, mem, s);
      if o.Running? {
        RunMoreFuel(code, mem, o.s, n - 1, m - 1);
      }
    }
  }

  /** The place where control leaves p is where q begins. */
  ghost predicate Enters(p: Code, q: Code, why: Why) {
    why == EndOfCode || (why.Unresolved? && Lookup(p, why.sym) == None && Lookup(q, why.sym) == Some(0))
  }

  /** Where an outcome of p goes when q follows p: only a jump to a symbol that q carries changes course. */
  function Redirect(o: Outcome, base: nat, q: Code): Outcome {
    if o.Stopped? && o.why.Unresolved? && Lookup(q, o.why.sym).Some?
    then Running(State(base + Lookup(q, o.why.sym).value, o.regs)) else o
  }

  lemma BranchAppend(p: Code, q: Code, s: State, taken: bool, target: string)
    ensures Branch(p + q, s, taken, target) == Redirect(Branch(p, s, taken, target), |p|, q)
  {
    LookupAppend(p, q, target);
  }

  lemma StepAppend(p: Code, q: Code, mem: seq<Byte>, s: State)
    requires s.pc < |p|
    ensures Step(p + q, mem, s) == Redirect(Step(p, mem, s), |p|, q)
  {
    assert (p + q)[s.pc] == p[s.pc];
    var op := p[s.pc].op;
    if op.IsJump() && Taken(op, s.regs).Some? {
      BranchAppend(p, q, s, Taken(op, s.regs).value, op.target);
    }
  }

  lemma StepShape(p: Code, mem: seq<Byte>, s: State)
    requires s.pc < |p|
    ensures var o := Step(p, mem, s);
            && (o.Running? ==> o.s.pc <= |p|)
            && (o.Stopped? ==> o.regs == s.regs && o.why.Unresolved? && Lookup(p, o.why.sym) == None)
  {
    if p[s.pc].op.IsJump() {
      LookupMeaning(p, p[s.pc].op.target);
    }
  }

  /** Appending q does not disturb a run that ends inside p, nor one that leaves for a symbol q does not carry. */
  lemma {:induction false} RunPrefix(p: Code, q: Code, mem: seq<Byte>, s: State, n: nat)
    requires s.pc <= |p|
    requires var o := Run(p, mem, s, n);
             o.Exited? || (o.Stopped? && o.why.Unresolved? && Lookup(q, o.why.sym) == None)
    ensures Run(p + q, mem, s, n) == Run(p, mem, s, n)
    decreases n
  {
    StepAppend(p, q, mem, s);
    StepShape(p, mem, s);
    var o := Step(p, mem, s);
    if o.Running? {
      RunPrefix(p, q, mem, o.s, n - 1);
    }
  }

  /** When a run leaves p for the start of q, the run of p + q continues there. */
  lemma {:induction false} RunInto(p: Code, q: Code, mem: seq<Byte>, s: State, n: nat, m: nat, regs: Regs, why: Why)
    requires s.pc <= |p|
    requires Run(p, mem, s, n) == Stopped(regs, why) && Enters(p, q, why)
    requires !Run(p + q, mem, State(|p|, regs), m).Running?
    ensures Run(p + q, mem, s, n + m) == Run(p + q, mem, State(|p|, regs), m)
    decreases n
  {
    hide Step;
    if s.pc == |p| {
      RunMoreFuel(p + q, mem, State(|p|, regs), m, n + m);
    } else {
      StepAppend(p, q, mem, s);
      StepShape(p, mem, s);
      var o := Step(p, mem, s);
      if o.Running? {
        RunInto(p, q, mem, o.s, n - 1, m, regs, why);
      } else {
        RunMoreFuel(p + q, mem, State(|p|, regs), m, n + m - 1);
      }
    }
  }

  /** No jump in code goes to a symbol that other carries. */
  ghost predicate NoJumpInto(code: Code, other: Code) {
    forall i :: 0 <= i < |code| && code[i].op.IsJump() ==> Lookup(other, code[i].op.target) == None
  }

  function Shift(o: Outcome, offset: nat): Outcome {
    if o.Running? then Running(State(offset + o.s.pc, o.s.regs)) else o
  }

  lemma StepSuffix(p: Code, q: Code, mem: seq<Byte>, s: State)
    requires s.pc < |q| && NoJumpInto(q, p)
    ensures Step(p + q, mem, State(|p| + s.pc, s.regs)) == Shift(Step(q, mem, s), |p|)
  {
    assert (p + q)[|p| + s.pc] == q[s.pc];
    if q[s.pc].op.IsJump() {
      LookupAppend(p, q, q[s.pc].op.target);
    }
  }

  /** Code behaves the same when it is placed after code it does not jump into. */
  lemma {:induction false} RunSuffix(p: Code, q: Code, mem: seq<Byte>, s: State, n: nat)
    requires NoJumpInto(q, p)
    ensures Run(p + q, mem, State(|p| + s.pc, s.regs), n) == Shift(Run(q, mem, s, n), |p|)
    decreases n
  {
    hide Step;
    if s.pc < |q| && n > 0 {
      StepSuffix(p, q, mem, s);
      var o := Step(q, mem, s);
      if o.Running? {
        RunSuffix(p, q, mem, o.s, n - 1);
      }
    }
  }

  /** Run p and then q, each from its first instruction with its own length as fuel. */
  lemma RunThrough(p: Code, q: Code, mem: seq<Byte>, regs: Regs, mid: Regs, why: Why, o: Outcome)
    requires NoJumpInto(q, p) && Enters(p, q, why) && !o.Running?
    requires Run(p, mem, State(0, regs), |p|) == Stopped(mid, why)
    requires Run(q, mem, State(0, mid), |q|) == o
    ensures Run(p + q, mem, State(0, regs), |p + q|) == o
  {
    hide Run, Enters, NoJumpInto;
    RunSuffix(p, q, mem, State(0, mid), |q|);
    RunInto(p, q, mem, State(0, regs), |p|, |q|, mid, why);
  }

  lemma RunAway(p: Code, q: Code, mem: seq<Byte>, regs: Regs, mid: Regs, sym: string)
    requires Lookup(q, sym) == None
    requires Run(p, mem, State(0, regs), |p|) == Stopped(mid, Unresolved(sym))
    ensures Run(p + q, mem, State(0, regs), |p + q|) == Stopped(mid, Unresolved(sym))
  {
    RunPrefix(p, q, mem, State(0, regs), |p|);
    RunMoreFuel(p + q, mem, State(0, regs), |p|, |p + q|);
  }

  /** Labelling the first instruction changes nothing for code that does not jump to that label. */
  lemma {:induction false} RunLabelled(q: Code, sym: string, mem: seq<Byte>, s: State, n: nat)
    requires q != []
    requires NoJumpInto(q, q[0 := q[0].WithSymbol(sym)]) && NoJumpInto(q, q)
    ensures Run(q[0 := q[0].WithSymbol(sym)], mem, s, n) == Run(q, mem, s, n)
    decreases n
  {
    var q' := q[0 := q[0].WithSymbol(sym)];
    if s.pc < |q| && n > 0 {
      assert q'[s.pc].op == q[s.pc].op;
      var o := Step(q, mem, s);
      assert Step(q', mem, s) == o;
      if o.Running? {
        RunLabelled(q, sym, mem, o.s, n - 1);
      }
    }
  }
}
