/** Why the compiled filter decides what the rules say: first one block, then every state of the builder. */
module FilterMeaning {
  import opened Words
  import opened Wrappers
  import opened Ebpf
  import opened DeviceRules
  import opened FilterCompiler

  /** R2 to R5 hold the decoded request. R1 may hold anything. */
  ghost predicate Holding(regs: Regs, req: Request) {
    && R2 in regs && regs[R2] == Number(req.kind)
    && R3 in regs && regs[R3] == Number(req.access)
    && R4 in regs && regs[R4] == Number(req.major)
    && R5 in regs && regs[R5] == Number(req.minor)
  }

  // ----- Decoding the request -----

  lemma WordBytes(x: U32)
    ensures var b := BytesOf(x);
            && ByteAt(b, 0) + 0x100 * ByteAt(b, 1) + 0x1_0000 * ByteAt(b, 2) + 0x100_0000 * ByteAt(b, 3) == x
            && ByteAt(b, 0) + 0x100 * ByteAt(b, 1) == x % TWO_16
  {
  }

  /** The kernel's layout, byte by byte: type and access are the halves of the first word; then major and minor. */
  lemma RequestLayout(req: Request)
    ensures var b := Encode(req);
            && |b| == 12
            && ByteAt(b, 0) + 0x100 * ByteAt(b, 1) == req.kind
            && ByteAt(b, 2) + 0x100 * ByteAt(b, 3) == req.access
            && ByteAt(b, 4) + 0x100 * ByteAt(b, 5) + 0x1_0000 * ByteAt(b, 6) + 0x100_0000 * ByteAt(b, 7) == req.major
            && ByteAt(b, 8) + 0x100 * ByteAt(b, 9) + 0x1_0000 * ByteAt(b, 10) + 0x100_0000 * ByteAt(b, 11) == req.minor
  {
    hide BytesOf, ByteAt;
    EncodedBytes(req);
    HalvesOfWord(req.kind, req.access);
    WordBytes(req.major);
    WordBytes(req.minor);
  }

  lemma EncodedBytes(req: Request)
    ensures var b, head := Encode(req), BytesOf(req.access * TWO_16 + req.kind);
            && |b| == 12
            && (forall i: nat {:trigger ByteAt(head, i)} :: i < 4 ==> ByteAt(b, i) == ByteAt(head, i))
            && (forall i: nat :: i < 4 ==> ByteAt(b, 4 + i) == ByteAt(BytesOf(req.major), i))
            && (forall i: nat :: i < 4 ==> ByteAt(b, 8 + i) == ByteAt(BytesOf(req.minor), i))
  {
    hide BytesOf;
  }

  lemma HalvesOfWord(low: U16, high: U16)
    ensures var b := BytesOf(high * TWO_16 + low);
            && ByteAt(b, 0) + 0x100 * ByteAt(b, 1) == low
            && ByteAt(b, 2) + 0x100 * ByteAt(b, 3) == high
  {
    WordBytes(high * TWO_16 + low);
    assert (high * TWO_16 + low) % TWO_16 == low;
  }

  lemma LoadField(before: seq<Byte>, x: U32, after: seq<Byte>)
    ensures Load(before + BytesOf(x) + after, |before|, Size.Word) == Some(x as nat)
    ensures Load(before + BytesOf(x) + after, |before|, Size.Half) == Some(x % TWO_16)
  {
    WordBytes(x);
    var mem := before + BytesOf(x) + after;
    assert forall i :: 0 <= i < 4 ==> mem[|before| + i] == BytesOf(x)[i];
    assert forall i: nat :: i < 4 ==> ByteAt(mem, |before| + i) == ByteAt(BytesOf(x), i);
  }

  lemma PrologueLoads(req: Request)
    ensures Load(Encode(req), 0, Size.Half) == Some(req.kind as nat)
    ensures Load(Encode(req), 0, Size.Word) == Some(req.access * TWO_16 + req.kind)
  {
    hide Load, BytesOf;
    var rest := BytesOf(req.major) + BytesOf(req.minor);
    var head := BytesOf(req.access * TWO_16 + req.kind);
    assert [] + head + rest == Encode(req);
    LoadField([], req.access * TWO_16 + req.kind, rest);
  }

  lemma {:induction false} PrologueLoadsNumbers(req: Request)
    ensures Load(Encode(req), 4, Size.Word) == Some(req.major as nat)
    ensures Load(Encode(req), 8, Size.Word) == Some(req.minor as nat)
  {
    hide Load;
    var a, b, c := BytesOf(req.access * TWO_16 + req.kind), BytesOf(req.major), BytesOf(req.minor);
    LoadField(a, req.major, c);
    LoadField(a + b, req.minor, []);
    assert a + b + c + [] == Encode(req);
  }

  lemma ShiftBy4(x: nat, more: nat)
    ensures ShiftRight(x, more + 4) == ShiftRight(x / 16, more)
  {
    assert ShiftRight(x, more + 4) == ShiftRight(x / 2, more + 3);
    assert ShiftRight(x / 2, more + 3) == ShiftRight(x / 4, more + 2);
    assert ShiftRight(x / 4, more + 2) == ShiftRight(x / 8, more + 1);
    assert ShiftRight(x / 8, more + 1) == ShiftRight(x / 16, more);
  }

  lemma ShiftBy16(x: nat)
    ensures ShiftRight(x, 16) == x / TWO_16
  {
    ShiftBy4(x, 12);
    ShiftBy4(x / 16, 8);
    ShiftBy4(x / 256, 4);
    ShiftBy4(x / 4096, 0);
  }

  /** The registers before instruction i of the prologue. */
  ghost function PrologueRegs(req: Request, i: nat): Regs {
    var start := Start().regs;
    if i == 0 then start
    else if i == 1 then start[R2 := Number(req.kind)]
    else if i == 2 then PrologueRegs(req, 1)[R3 := Number(req.access * TWO_16 + req.kind)]
    else if i == 3 then PrologueRegs(req, 2)[R3 := Number(req.access)]
    else if i == 4 then PrologueRegs(req, 3)[R4 := Number(req.major)]
    else PrologueRegs(req, 4)[R5 := Number(req.minor)]
  }

  lemma PrologueCompute(req: Request, i: nat)
    requires i < 5
    ensures Compute(Prologue[i].op, Encode(req), PrologueRegs(req, i)) == Some(PrologueRegs(req, i + 1))
  {
    PrologueLoads(req);
    PrologueLoadsNumbers(req);
    ShiftBy16(req.access * TWO_16 + req.kind);
    assert (req.access * TWO_16 + req.kind) / TWO_16 == req.access;
    var regs := PrologueRegs(req, i);
    if i == 2 {
      assert regs[R3] == Number(req.access * TWO_16 + req.kind);
    } else {
      assert R1 in regs && regs[R1] == Context by { PrologueKeepsContext(req, i); }
    }
  }

  lemma {:induction false} PrologueKeepsContext(req: Request, i: nat)
    requires i <= 5
    ensures R1 in PrologueRegs(req, i) && PrologueRegs(req, i)[R1] == Context
  {
    if i > 0 {
      PrologueKeepsContext(req, i - 1);
    }
  }

  lemma {:induction false} PrologueFrom(req: Request, i: nat)
    requires i <= 5
    ensures Run(Prologue, Encode(req), State(i, PrologueRegs(req, i)), 5 - i)
         == Stopped(PrologueRegs(req, 5), EndOfCode)
    decreases 5 - i
  {
    if i < 5 {
      PrologueCompute(req, i);
      PrologueFrom(req, i + 1);
      assert Step(Prologue, Encode(req), State(i, PrologueRegs(req, i)))
          == Running(State(i + 1, PrologueRegs(req, i + 1)));
    }
  }

  lemma PrologueHolds(req: Request)
    ensures Holding(PrologueRegs(req, 5), req)
  {
    var r1 := PrologueRegs(req, 1);
    var r2 := PrologueRegs(req, 2);
    var r3 := PrologueRegs(req, 3);
    var r4 := PrologueRegs(req, 4);
    assert r1[R2] == Number(req.kind);
    assert r2 == r1[R3 := Number(req.access * TWO_16 + req.kind)];
    assert r3 == r2[R3 := Number(req.access)];
    assert r4 == r3[R4 := Number(req.major)];
  }

  lemma {:induction false} PrologueDecodes(req: Request)
    ensures var o := Run(Prologue, Encode(req), Start(), 5);
            o.Stopped? && o.why == EndOfCode && Holding(o.regs, req)
  {
    hide Run, Encode, Holding;
    PrologueFrom(req, 0);
    PrologueHolds(req);
  }

  // ----- Pieces of a block -----

  /** A piece of a block: it carries no symbols and its only jumps go to next. */
  ghost predicate IsPiece(code: Code, next: string) {
    && next != ""
    && (forall i :: 0 <= i < |code| ==> code[i].symbol == "")
    && (forall i :: 0 <= i < |code| && code[i].op.IsJump() ==> code[i].op.target == next)
  }

  lemma PieceLookup(code: Code, next: string, sym: string)
    requires IsPiece(code, next) && sym != ""
    ensures Lookup(code, sym) == None
  {
    LookupMeaning(code, sym);
  }

  /** From these registers: fall through when pass, otherwise leave for next; the request stays decoded. */
  ghost predicate CheckFrom(code: Code, next: string, mem: seq<Byte>, req: Request, pass: bool, regs: Regs) {
    var o := Run(code, mem, State(0, regs), |code|);
    o.Stopped? && Holding(o.regs, req) && o.why == (if pass then EndOfCode else Unresolved(next))
  }

  ghost predicate Checks(code: Code, next: string, mem: seq<Byte>, req: Request, pass: bool) {
    forall regs: Regs {:trigger CheckFrom(code, next, mem, req, pass, regs)} ::
      Holding(regs, req) ==> CheckFrom(code, next, mem, req, pass, regs)
  }

  function Answer(allow: bool): nat {
    if allow then 1 else 0
  }

  /** The same, but when pass holds the program returns. */
  ghost predicate DecidesFrom(code: Code, next: string, mem: seq<Byte>, req: Request, pass: bool, allow: bool,
                              regs: Regs) {
    var o := Run(code, mem, State(0, regs), |code|);
    if pass then o == Exited(Answer(allow))
    else o.Stopped? && Holding(o.regs, req) && o.why == Unresolved(next)
  }

  ghost predicate Decides(code: Code, next: string, mem: seq<Byte>, req: Request, pass: bool, allow: bool) {
    forall regs: Regs {:trigger DecidesFrom(code, next, mem, req, pass, allow, regs)} ::
      Holding(regs, req) ==> DecidesFrom(code, next, mem, req, pass, allow, regs)
  }

  lemma CheckThenFrom(first: Code, second: Code, next: string, mem: seq<Byte>, req: Request,
                      pass1: bool, pass2: bool, allow: bool, regs: Regs)
    requires IsPiece(first, next) && IsPiece(second, next)
    requires CheckFrom(first, next, mem, req, pass1, regs)
    requires DecidesFrom(second, next, mem, req, pass2, allow, Run(first, mem, State(0, regs), |first|).regs)
    ensures DecidesFrom(first + second, next, mem, req, pass1 && pass2, allow, regs)
  {
    var mid := Run(first, mem, State(0, regs), |first|).regs;
    if pass1 {
      assert NoJumpInto(second, first) by {
        PieceLookup(first, next, next);
      }
      RunThrough(first, second, mem, regs, mid, EndOfCode, Run(second, mem, State(0, mid), |second|));
    } else {
      PieceLookup(second, next, next);
      RunAway(first, second, mem, regs, mid, next);
    }
  }

  lemma CheckThen(first: Code, second: Code, next: string, mem: seq<Byte>, req: Request, pass1: bool, pass2: bool,
                  allow: bool)
    requires IsPiece(first, next) && Checks(first, next, mem, req, pass1)
    requires IsPiece(second, next) && Decides(second, next, mem, req, pass2, allow)
    ensures IsPiece(first + second, next)
    ensures Decides(first + second, next, mem, req, pass1 && pass2, allow)
  {
    forall regs: Regs | Holding(regs, req)
      ensures DecidesFrom(first + second, next, mem, req, pass1 && pass2, allow, regs)
    {
      assert CheckFrom(first, next, mem, req, pass1, regs);
      assert DecidesFrom(second, next, mem, req, pass2, allow, Run(first, mem, State(0, regs), |first|).regs);
      CheckThenFrom(first, second, next, mem, req, pass1, pass2, allow, regs);
    }
  }

  lemma TypeCheckChecks(typ: string, next: string, mem: seq<Byte>, req: Request)
    requires next != "" && (typ == "a" || typ == "b" || typ == "c")
    ensures IsPiece(TypeCheck(typ, next), next)
    ensures Checks(TypeCheck(typ, next), next, mem, req, TypeMatches(typ, req.kind))
  {
    var code := TypeCheck(typ, next);
    if typ != "a" {
      assert Lookup(code[1..], next) == None;
    }
  }

  lemma NumberCheckChecks(r: Reg, n: Int64, next: string, mem: seq<Byte>, req: Request)
    requires next != "" && n < TWO_32 && (r == R4 || r == R5)
    ensures IsPiece(NumberCheck(r, n, next), next)
    ensures Checks(NumberCheck(r, n, next), next, mem, req,
                   NumberMatches(Some(n), if r == R4 then req.major else req.minor))
  {
    var code := NumberCheck(r, n, next);
    if n >= 0 {
      assert Lookup(code[1..], next) == None;
    }
  }

  lemma MaskBits(letters: string)
    ensures var m := Mask(letters);
            && (m % 2 == 1 <==> 'm' in letters)
            && (m / 2 % 2 == 1 <==> 'r' in letters)
            && (m / 4 % 2 == 1 <==> 'w' in letters)
            && (m == 7 <==> FullAccess(letters))
  {
  }

  ghost predicate SomeCommonBit(a: nat, mask: nat) {
    (a % 2 == 1 && mask % 2 == 1) || (a / 2 % 2 == 1 && mask / 2 % 2 == 1) || (a / 4 % 2 == 1 && mask / 4 % 2 == 1)
  }

  lemma AndSmall(a: nat, mask: nat)
    requires mask < 8
    ensures BitAnd(a, mask) == 0 <==> !SomeCommonBit(a, mask)
  {
    assert mask / 2 / 2 == mask / 4 && a / 2 / 2 == a / 4;
    assert BitAnd(a / 4, mask / 4) == 0 <==> !(a / 4 % 2 == 1 && mask / 4 % 2 == 1) by {
      assert mask / 4 / 2 == 0;
    }
    assert BitAnd(a / 2, mask / 2) == 0 <==>
           !((a / 2 % 2 == 1 && mask / 2 % 2 == 1) || (a / 4 % 2 == 1 && mask / 4 % 2 == 1));
  }

  /** The masked access is zero exactly when the request asks for nothing that the letters name. */
  lemma MaskAsks(letters: string, access: nat)
    ensures BitAnd(access, Mask(letters)) == 0 <==>
            forall i :: 0 <= i < |letters| ==> !Asks(access, letters[i])
  {
    AndSmall(access, Mask(letters));
    MaskBits(letters);
    if SomeCommonBit(access, Mask(letters)) {
      var c := if access % 2 == 1 && 'm' in letters then 'm'
               else if access / 2 % 2 == 1 && 'r' in letters then 'r'
               else 'w';
      assert Asks(access, c) && c in letters;
    }
  }

  lemma AccessCheckFrom(mask: nat, next: string, mem: seq<Byte>, req: Request, regs: Regs)
    requires next != "" && mask < 8 && Holding(regs, req)
    ensures var code := [Plain(MovReg32(R1, R3)), Plain(AndImm32(R1, mask)), Plain(JEqImm(R1, 0, next))];
            IsPiece(code, next) && CheckFrom(code, next, mem, req, BitAnd(req.access, mask) != 0, regs)
  {
    var code := [Plain(MovReg32(R1, R3)), Plain(AndImm32(R1, mask)), Plain(JEqImm(R1, 0, next))];
    PieceLookup(code, next, next);
    var regs1 := regs[R1 := Number(req.access)];
    var regs2 := regs1[R1 := Number(BitAnd(req.access, mask))];
    var o := if BitAnd(req.access, mask) == 0 then Stopped(regs2, Unresolved(next)) else Stopped(regs2, EndOfCode);
    assert Compute(code[0].op, mem, regs) == Some(regs1);
    assert Compute(code[1].op, mem, regs1) == Some(regs2);
    assert Run(code, mem, State(2, regs2), 1) == o;
    assert Run(code, mem, State(1, regs1), 2) == o;
  }

  lemma AccessCheckChecks(letters: string, next: string, mem: seq<Byte>, req: Request)
    requires next != ""
    ensures IsPiece(AccessCheck(letters, next), next)
    ensures Checks(AccessCheck(letters, next), next, mem, req, AccessMatches(letters, req.access))
  {
    MaskAsks(letters, req.access);
    MaskBits(letters);
    if Mask(letters) != 7 {
      forall regs: Regs | Holding(regs, req)
        ensures CheckFrom(AccessCheck(letters, next), next, mem, req, AccessMatches(letters, req.access), regs)
      {
        AccessCheckFrom(Mask(letters), next, mem, req, regs);
      }
    }
  }

  lemma AcceptDecides(allow: bool, next: string, mem: seq<Byte>, req: Request)
    requires next != ""
    ensures IsPiece(AcceptBlock(allow), next)
    ensures Decides(AcceptBlock(allow), next, mem, req, true, allow)
  {
    var code := AcceptBlock(allow);
    forall regs: Regs | Holding(regs, req)
      ensures Run(code, mem, State(0, regs), 2) == Exited(Answer(allow))
    {
      var regs1 := regs[R0 := Number(Answer(allow))];
      assert Step(code, mem, State(0, regs)) == Running(State(1, regs1));
      assert Run(code, mem, State(1, regs1), 1) == Exited(Answer(allow));
    }
  }

  lemma {:induction false} BodyDecides(dev: Device, next: string, mem: seq<Byte>, req: Request)
    requires FirstProblem(dev) == None && next != ""
    ensures IsPiece(Body(dev, next), next)
    ensures Decides(Body(dev, next), next, mem, req, Matches(dev, req), dev.allow)
  {
    var t, a := TypeCheck(dev.typ, next), AccessCheck(dev.access, next);
    var m, n := NumberCheck(R4, dev.major.value, next), NumberCheck(R5, dev.minor.value, next);
    TypeCheckChecks(dev.typ, next, mem, req);
    AccessCheckChecks(dev.access, next, mem, req);
    NumberCheckChecks(R4, dev.major.value, next, mem, req);
    NumberCheckChecks(R5, dev.minor.value, next, mem, req);
    AcceptDecides(dev.allow, next, mem, req);
    var pn := NumberMatches(dev.minor, req.minor);
    var pm := NumberMatches(dev.major, req.major);
    var pa := AccessMatches(dev.access, req.access);
    CheckThen(n, AcceptBlock(dev.allow), next, mem, req, pn, true, dev.allow);
    CheckThen(m, n + AcceptBlock(dev.allow), next, mem, req, pm, pn, dev.allow);
    CheckThen(a, m + (n + AcceptBlock(dev.allow)), next, mem, req, pa, pm && pn, dev.allow);
    CheckThen(t, a + (m + (n + AcceptBlock(dev.allow))), next, mem, req, TypeMatches(dev.typ, req.kind),
              pa && pm && pn, dev.allow);
  }
}
