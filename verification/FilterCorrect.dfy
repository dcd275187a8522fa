/** The main results about the device filter: the invariant of the builder, and what every finished program does. */
module FilterCorrect {
  import opened Words
  import opened Wrappers
  import opened Ebpf
  import opened DeviceRules
  import opened FilterCompiler
  import opened FilterMeaning

  // ----- One block -----

  /** Block number id: labelled at its start only; its jumps go to the next block, and it never loads. */
  ghost predicate IsBlock(code: Code, id: nat, jumps: bool) {
    && code != [] && code[0].symbol == BlockSym(id)
    && (forall i :: 0 < i < |code| ==> code[i].symbol == "")
    && (forall i :: 0 <= i < |code| && code[i].op.IsJump() ==> jumps && code[i].op.target == BlockSym(id + 1))
    && (forall i :: 0 <= i < |code| ==> !code[i].op.LoadMem?)
  }

  lemma LabelledIsBlock(body: Code, id: nat, jumps: bool)
    requires body != [] && IsPiece(body, BlockSym(id + 1)) && LoadFree(body)
    requires jumps || forall i :: 0 <= i < |body| ==> !body[i].op.IsJump()
    ensures IsBlock(Labelled(body, BlockSym(id)), id, jumps)
  {
  }

  lemma {:induction false} BlockShape(dev: Device, id: nat)
    requires FirstProblem(dev) == None
    ensures IsBlock(Block(dev, id), id, !IsWildcard(dev))
  {
    var next := BlockSym(id + 1);
    assert next != "";
    hide Body, BlockSym, Mask, IsWildcard, FirstProblem, IsBlock, IsPiece, LoadFree, Labelled;
    BodyShape(dev, next);
    WildcardIff(dev);
    LabelledIsBlock(Body(dev, next), id, !IsWildcard(dev));
  }

  ghost predicate LoadFree(code: Code) {
    forall i :: 0 <= i < |code| ==> !code[i].op.LoadMem?
  }

  lemma PieceConcat(a: Code, b: Code, next: string)
    requires IsPiece(a, next) && IsPiece(b, next) && LoadFree(a) && LoadFree(b)
    ensures IsPiece(a + b, next) && LoadFree(a + b)
  {
  }

  lemma {:induction false} BodyShape(dev: Device, next: string)
    requires FirstProblem(dev) == None && next != ""
    ensures IsPiece(Body(dev, next), next) && LoadFree(Body(dev, next))
    ensures dev.typ == "a" && Mask(dev.access) == 7 && dev.major.value < 0 && dev.minor.value < 0 ==>
              Body(dev, next) == AcceptBlock(dev.allow)
  {
    var t, a := TypeCheck(dev.typ, next), AccessCheck(dev.access, next);
    var m, n := NumberCheck(R4, dev.major.value, next), NumberCheck(R5, dev.minor.value, next);
    var e := AcceptBlock(dev.allow);
    PieceConcat(n, e, next);
    PieceConcat(m, n + e, next);
    PieceConcat(a, m + (n + e), next);
    PieceConcat(t, a + (m + (n + e)), next);
  }

  lemma {:induction false} FirstUnknownMeaning(letters: string)
    ensures FirstUnknown(letters) == None <==> forall i :: 0 <= i < |letters| ==> letters[i] in "rwm"
  {
    if letters != "" {
      FirstUnknownMeaning(letters[1..]);
      assert letters == [letters[0]] + letters[1..];
    }
  }

  /** appendDevice sees a wildcard exactly when the rule is one that every request matches. */
  lemma WildcardIff(dev: Device)
    requires FirstProblem(dev) == None
    ensures IsWildcard(dev) <==>
            dev.typ == "a" && Mask(dev.access) == 7 && dev.major.value < 0 && dev.minor.value < 0
    ensures IsWildcard(dev) ==> forall req :: Matches(dev, req)
  {
    MaskBits(dev.access);
    FirstUnknownMeaning(dev.access);
  }

  /**
    * A block, on its own: it returns the rule's decision if the rule matches, otherwise it leaves for the next block.
    */
  lemma BlockDecides(dev: Device, id: nat, mem: seq<Byte>, req: Request, regs: Regs)
    requires FirstProblem(dev) == None && Holding(regs, req)
    ensures DecidesFrom(Block(dev, id), BlockSym(id + 1), mem, req, Matches(dev, req), dev.allow, regs)
  {
    var next := BlockSym(id + 1);
    var body := Body(dev, next);
    BodyDecides(dev, next, mem, req);
    assert DecidesFrom(body, next, mem, req, Matches(dev, req), dev.allow, regs);
    PieceLookup(body, next, next);
    assert NoJumpInto(body, Block(dev, id)) by {
      BlockShape(dev, id);
      LookupMeaning(Block(dev, id), next);
      if BlockSym(id) == next {
        BlockSymInjective(id, id + 1);
      }
    }
    RunLabelled(body, BlockSym(id), mem, State(0, regs), |body|);
  }

  // ----- Labels -----

  /**
    * Every symbol of code is the label of one of the first `blocks` blocks, and every one of those has its label
    * once.
    */
  ghost predicate WellLabelled(code: Code, blocks: nat) {
    && (forall i :: 0 <= i < |code| && code[i].symbol != "" ==>
          exists k: nat :: k < blocks && code[i].symbol == BlockSym(k))
    && (forall k: nat :: k < blocks ==> Lookup(code, BlockSym(k)).Some?)
    && (forall i, j :: 0 <= i < j < |code| && code[i].symbol != "" ==> code[i].symbol != code[j].symbol)
  }

  /** Every jump goes forward to an instruction of code, or, when the code is still open, to the next block. */
  ghost predicate JumpsForward(code: Code, blocks: nat, open: bool) {
    forall i :: 0 <= i < |code| && code[i].op.IsJump() ==>
      var target := code[i].op.target;
      (open && target == BlockSym(blocks)) || (Lookup(code, target).Some? && i < Lookup(code, target).value)
  }

  lemma NextBlockIsFree(code: Code, blocks: nat, k: nat)
    requires WellLabelled(code, blocks) && blocks <= k
    ensures Lookup(code, BlockSym(k)) == None
  {
    LookupMeaning(code, BlockSym(k));
    var r := Lookup(code, BlockSym(k));
    if r.Some? {
      assert code[r.value].symbol != "";
      var j: nat :| j < blocks && code[r.value].symbol == BlockSym(j);
      BlockSymInjective(j, k);
    }
  }

  lemma BlockLookup(q: Code, id: nat, jumps: bool, sym: string)
    requires IsBlock(q, id, jumps) && sym != ""
    ensures Lookup(q, sym) == if sym == BlockSym(id) then Some(0) else None
  {
    LookupMeaning(q, sym);
  }

  lemma AddBlockLabels(p: Code, q: Code, blocks: nat, jumps: bool)
    requires WellLabelled(p, blocks) && IsBlock(q, blocks, jumps)
    ensures WellLabelled(p + q, blocks + 1)
  {
    var code := p + q;
    NextBlockIsFree(p, blocks, blocks);
    LookupMeaning(p, BlockSym(blocks));
    forall i | 0 <= i < |code| && code[i].symbol != ""
      ensures exists k: nat :: k < blocks + 1 && code[i].symbol == BlockSym(k)
    {
      if i < |p| {
        assert p[i].symbol != "";
        var k: nat :| k < blocks && p[i].symbol == BlockSym(k);
        assert k < blocks + 1;
      } else {
        assert code[i] == q[i - |p|];
        assert code[i].symbol == BlockSym(blocks);
      }
    }
    forall k: nat | k < blocks + 1
      ensures Lookup(code, BlockSym(k)).Some?
    {
      LookupAppend(p, q, BlockSym(k));
      BlockLookup(q, blocks, jumps, BlockSym(k));
    }
  }

  lemma AddBlockJumps(p: Code, q: Code, blocks: nat, jumps: bool)
    requires WellLabelled(p, blocks) && JumpsForward(p, blocks, true) && IsBlock(q, blocks, jumps)
    ensures JumpsForward(p + q, blocks + 1, jumps)
  {
    var code := p + q;
    forall i | 0 <= i < |code| && code[i].op.IsJump()
      ensures var target := code[i].op.target;
              || (jumps && target == BlockSym(blocks + 1))
              || (Lookup(code, target).Some? && i < Lookup(code, target).value)
    {
      var target := code[i].op.target;
      LookupAppend(p, q, target);
      if i < |p| {
        assert p[i].op.IsJump();
        NextBlockIsFree(p, blocks, blocks);
        BlockLookup(q, blocks, jumps, BlockSym(blocks));
      } else {
        assert q[i - |p|].op.IsJump();
      }
    }
  }

  // ----- The invariant of the builder -----

  /** Where control leaves an unfinished program. */
  function OpenEnd(id: nat): Why {
    if id == 0 then EndOfCode else Unresolved(BlockSym(id))
  }

  /**
    * The program so far, run on req: it returns the verdict of the rules compiled so far, or, when none of them
    * matches, it leaves for the block that has not been written yet, with the request still decoded in R2 to R5.
    */
  ghost predicate RunsAs(b: Builder, compiled: seq<Device>, req: Request) {
    && b.blockID >= 0
    && var o := Run(b.insts, Encode(req), Start(), |b.insts|);
       match Verdict(compiled, req)
       case Some(allow) => o == Exited(Answer(allow))
       case None => !b.hasWildCard && o.Stopped? && Holding(o.regs, req) && o.why == OpenEnd(b.blockID)
  }

  ghost predicate HasWildcard(devices: seq<Device>) {
    exists i :: 0 <= i < |devices| && IsWildcard(devices[i])
  }

  ghost predicate BuilderInvariant(b: Builder, compiled: seq<Device>) {
    && b.blockID >= 0
    && Prologue <= b.insts
    && WellLabelled(b.insts, b.blockID)
    && JumpsForward(b.insts, b.blockID, !b.hasWildCard)
    && (forall i :: 5 <= i < |b.insts| ==> !b.insts[i].op.LoadMem?)
    && (b.hasWildCard <==> HasWildcard(compiled))
    && forall req :: RunsAs(b, compiled, req)
  }

  lemma {:induction false} InitKeepsInvariant()
    ensures BuilderInvariant(Builder(Prologue, false, 0), [])
  {
    forall req
      ensures RunsAs(Builder(Prologue, false, 0), [], req)
    {
      PrologueDecodes(req);
    }
  }

  /** Control that leaves the program so far continues with q, when q is the next block. */
  lemma ContinueInto(b: Builder, req: Request, regs: Regs, q: Code, jumps: bool, o: Outcome)
    requires b.blockID >= 0 && WellLabelled(b.insts, b.blockID) && IsBlock(q, b.blockID, jumps)
    requires Run(b.insts, Encode(req), Start(), |b.insts|) == Stopped(regs, OpenEnd(b.blockID))
    requires Run(q, Encode(req), State(0, regs), |q|) == o && !o.Running?
    ensures Run(b.insts + q, Encode(req), Start(), |b.insts + q|) == o
  {
    BlockEnters(b.insts, q, b.blockID, jumps);
    RunThrough(b.insts, q, Encode(req), Start().regs, regs, OpenEnd(b.blockID), o);
  }

  lemma BlockEnters(p: Code, q: Code, id: nat, jumps: bool)
    requires WellLabelled(p, id) && IsBlock(q, id, jumps)
    ensures Enters(p, q, OpenEnd(id)) && NoJumpInto(q, p)
  {
    NextBlockIsFree(p, id, id);
    NextBlockIsFree(p, id, id + 1);
    BlockLookup(q, id, jumps, BlockSym(id));
  }

  /** A program that has returned is not disturbed by what follows it. */
  lemma ReturnedStays(b: Builder, compiled: seq<Device>, req: Request, q: Code)
    requires RunsAs(b, compiled, req) && Verdict(compiled, req).Some?
    ensures Run(b.insts + q, Encode(req), Start(), |b.insts + q|) == Exited(Answer(Verdict(compiled, req).value))
  {
    RunPrefix(b.insts, q, Encode(req), Start(), |b.insts|);
    RunMoreFuel(b.insts + q, Encode(req), Start(), |b.insts|, |b.insts + q|);
  }

  lemma VerdictCons(dev: Device, rest: seq<Device>, req: Request)
    ensures Verdict([dev] + rest, req) ==
            if Verdict(rest, req).Some? then Verdict(rest, req)
            else if Matches(dev, req) then Some(dev.allow) else None
  {
    assert ([dev] + rest)[1..] == rest;
  }

  lemma WildcardCons(dev: Device, rest: seq<Device>)
    ensures HasWildcard([dev] + rest) <==> IsWildcard(dev) || HasWildcard(rest)
  {
    var all := [dev] + rest;
    assert all[0] == dev;
    if HasWildcard(rest) {
      var i :| 0 <= i < |rest| && IsWildcard(rest[i]);
      assert all[i + 1] == rest[i];
    }
    if HasWildcard(all) {
      var i :| 0 <= i < |all| && IsWildcard(all[i]);
      if i > 0 {
        assert rest[i - 1] == all[i];
      }
    }
  }

  /** When no earlier rule matches, the block of the new rule decides, or control leaves for the block after it. */
  lemma NewBlockRuns(b: Builder, dev: Device, req: Request, regs: Regs)
    requires b.blockID >= 0 && WellLabelled(b.insts, b.blockID) && FirstProblem(dev) == None && Holding(regs, req)
    requires Run(b.insts, Encode(req), Start(), |b.insts|) == Stopped(regs, OpenEnd(b.blockID))
    ensures var code := b.insts + Block(dev, b.blockID);
            var o := Run(code, Encode(req), Start(), |code|);
            if Matches(dev, req) then o == Exited(Answer(dev.allow))
            else o.Stopped? && Holding(o.regs, req) && o.why == OpenEnd(b.blockID + 1)
  {
    var q := Block(dev, b.blockID);
    BlockShape(dev, b.blockID);
    BlockDecides(dev, b.blockID, Encode(req), req, regs);
    ContinueInto(b, req, regs, q, !IsWildcard(dev), Run(q, Encode(req), State(0, regs), |q|));
  }

  lemma AppendKeepsRuns(b: Builder, compiled: seq<Device>, dev: Device, req: Request)
    requires BuilderInvariant(b, compiled) && !b.hasWildCard && FirstProblem(dev) == None
    ensures RunsAs(Appended(b, dev).value, [dev] + compiled, req)
  {
    assert RunsAs(b, compiled, req);
    VerdictCons(dev, compiled, req);
    WildcardIff(dev);
    if Verdict(compiled, req).Some? {
      ReturnedStays(b, compiled, req, Block(dev, b.blockID));
    } else {
      NewBlockRuns(b, dev, req, Run(b.insts, Encode(req), Start(), |b.insts|).regs);
    }
  }

  /** Every call of appendDevice keeps the invariant, for the list with the new rule in front. */
  lemma {:induction false} AppendKeepsInvariant(b: Builder, compiled: seq<Device>, dev: Device)
    requires BuilderInvariant(b, compiled) && Appended(b, dev).Ok?
    ensures BuilderInvariant(Appended(b, dev).value, [dev] + compiled)
  {
    var b' := Appended(b, dev).value;
    WildcardCons(dev, compiled);
    if b.hasWildCard {
      forall req
        ensures RunsAs(b', [dev] + compiled, req)
      {
        assert RunsAs(b, compiled, req);
        VerdictCons(dev, compiled, req);
      }
    } else {
      var q := Block(dev, b.blockID);
      BlockShape(dev, b.blockID);
      WildcardIff(dev);
      AddBlockLabels(b.insts, q, b.blockID, !IsWildcard(dev));
      AddBlockJumps(b.insts, q, b.blockID, !IsWildcard(dev));
      forall req
        ensures RunsAs(b', [dev] + compiled, req)
      {
        AppendKeepsRuns(b, compiled, dev, req);
      }
    }
  }

  lemma {:induction false} BuiltInvariant(devices: seq<Device>)
    requires Built(devices).Ok?
    ensures BuilderInvariant(Built(devices).value, devices)
  {
    if devices == [] {
      InitKeepsInvariant();
    } else {
      BuiltInvariant(devices[1..]);
      AppendKeepsInvariant(Built(devices[1..]).value, devices[1..], devices[0]);
      assert [devices[0]] + devices[1..] == devices;
    }
  }

  // ----- Finished programs -----

  lemma FinalBlock(id: nat, mem: seq<Byte>, req: Request, regs: Regs)
    requires Holding(regs, req)
    ensures var q := Labelled(AcceptBlock(false), BlockSym(id));
            IsBlock(q, id, false) && Run(q, mem, State(0, regs), |q|) == Exited(0)
  {
    var q := Labelled(AcceptBlock(false), BlockSym(id));
    var regs1 := regs[R0 := Number(0)];
    assert Step(q, mem, State(0, regs)) == Running(State(1, regs1));
    assert Run(q, mem, State(1, regs1), 1) == Exited(0);
  }

  /**
    * The compiler is correct: on every request, the program returns within as many steps as it has instructions,
    * and it returns 1 if the last matching rule allows, 0 if that rule denies or no rule matches.
    */
  lemma {:induction false} FilterDecides(devices: seq<Device>, req: Request, code: Code)
    requires Compiled(devices) == Ok(code)
    ensures Run(code, Encode(req), Start(), |code|) == Exited(if Verdict(devices, req) == Some(true) then 1 else 0)
  {
    BuiltInvariant(devices);
    var b := Built(devices).value;
    assert RunsAs(b, devices, req);
    if !b.hasWildCard {
      var q := Labelled(AcceptBlock(false), BlockSym(b.blockID));
      if Verdict(devices, req).Some? {
        ReturnedStays(b, devices, req, q);
      } else {
        var regs := Run(b.insts, Encode(req), Start(), |b.insts|).regs;
        FinalBlock(b.blockID, Encode(req), req, regs);
        ContinueInto(b, req, regs, q, false, Exited(0));
      }
    }
  }

  /** With numbers below 2^31 in every live rule, the program decides what the rules were written to say. */
  lemma {:induction false} FilterDecidesAsIntended(devices: seq<Device>, req: Request, code: Code)
    requires Compiled(devices) == Ok(code)
    requires forall i: nat :: Live(devices, i) ==> Narrow(devices[i]) || devices[i].access == ""
    ensures Run(code, Encode(req), Start(), |code|)
         == Exited(if IntendedVerdict(devices, req) == Some(true) then 1 else 0)
  {
    FilterDecides(devices, req, code);
    NarrowListsMeanWhatTheySay(devices, req);
  }

  /** Every jump has exactly one target, and it lies ahead; nothing is loaded after the prologue. */
  ghost predicate WellFormed(code: Code) {
    && (forall i :: 0 <= i < |code| && code[i].op.IsJump() ==>
          exists j :: i < j < |code| && UniqueTarget(code, code[i].op.target, j))
    && (forall i :: 5 <= i < |code| ==> !code[i].op.LoadMem?)
  }

  ghost predicate UniqueTarget(code: Code, sym: string, j: int) {
    0 <= j < |code| && forall k :: 0 <= k < |code| ==> (code[k].symbol == sym <==> k == j)
  }

  lemma ClosedIsWellFormed(code: Code, blocks: nat)
    requires WellLabelled(code, blocks) && JumpsForward(code, blocks, false)
    requires forall i :: 5 <= i < |code| ==> !code[i].op.LoadMem?
    requires forall i :: 0 <= i < |code| && code[i].op.IsJump() ==> code[i].op.target != ""
    ensures WellFormed(code)
  {
    forall i | 0 <= i < |code| && code[i].op.IsJump()
      ensures exists j :: i < j < |code| && UniqueTarget(code, code[i].op.target, j)
    {
      var target := code[i].op.target;
      LookupMeaning(code, target);
      var j := Lookup(code, target).value;
      assert UniqueTarget(code, target, j);
    }
  }

  lemma {:induction false} JumpsAreNamed(devices: seq<Device>)
    requires Built(devices).Ok?
    ensures var code := Built(devices).value.insts;
            forall i :: 0 <= i < |code| && code[i].op.IsJump() ==> code[i].op.target != ""
  {
    if devices != [] {
      JumpsAreNamed(devices[1..]);
      var b := Built(devices[1..]).value;
      if !b.hasWildCard {
        BlockShape(devices[0], b.blockID);
      }
    }
  }

  lemma {:induction false} FilterIsWellFormed(devices: seq<Device>)
    requires Compiled(devices).Ok?
    ensures WellFormed(Compiled(devices).value)
  {
    BuiltInvariant(devices);
    JumpsAreNamed(devices);
    var b := Built(devices).value;
    if b.hasWildCard {
      ClosedIsWellFormed(b.insts, b.blockID);
    } else {
      var q := Labelled(AcceptBlock(false), BlockSym(b.blockID));
      assert IsBlock(q, b.blockID, false);
      AddBlockLabels(b.insts, q, b.blockID, false);
      AddBlockJumps(b.insts, q, b.blockID, false);
      ClosedIsWellFormed(b.insts + q, b.blockID + 1);
    }
  }

  // ----- Pruning, and which lists are refused -----

  lemma {:induction false} BuiltAppend(before: seq<Device>, after: seq<Device>)
    ensures Built(after).Err? ==> Built(before + after) == Built(after)
    ensures Built(after).Ok? && Built(after).value.hasWildCard ==> Built(before + after) == Built(after)
  {
    if before == [] {
      assert before + after == after;
    } else {
      BuiltAppend(before[1..], after);
      assert (before + after)[1..] == before[1..] + after;
    }
  }

  /** Rules before a wildcard leave no trace: not one instruction, and not one error. */
  lemma {:induction false} WildcardPrunes(before: seq<Device>, wildcard: Device, after: seq<Device>)
    requires IsWildcard(wildcard)
    ensures Compiled(before + ([wildcard] + after)) == Compiled([wildcard] + after)
  {
    var live := [wildcard] + after;
    BuiltAppend(before, live);
    if Built(live).Ok? {
      BuiltInvariant(live);
      assert live[0] == wildcard;
    }
  }

  /**
    * A rule has no problem exactly when its type is known, both numbers are given and fit a word, and every letter is
    * known.
    */
  lemma FirstProblemIff(dev: Device)
    ensures FirstProblem(dev) == None <==>
            && (dev.typ == "a" || dev.typ == "b" || dev.typ == "c")
            && dev.major.Some? && dev.major.value < TWO_32 && dev.minor.Some? && dev.minor.value < TWO_32
            && forall i :: 0 <= i < |dev.access| ==> dev.access[i] in "rwm"
  {
    FirstUnknownMeaning(dev.access);
  }

  /** The first letter that is not r, w or m. */
  ghost predicate FirstStranger(letters: string, i: nat) {
    && i < |letters| && letters[i] !in "rwm"
    && forall j :: 0 <= j < i ==> letters[j] in "rwm"
  }

  lemma {:induction false} FirstUnknownIsStranger(letters: string, i: nat)
    requires FirstStranger(letters, i)
    ensures FirstUnknown(letters) == Some(letters[i])
  {
    assert letters == [letters[0]] + letters[1..];
    if i > 0 {
      assert letters[0] in "rwm";
      FirstUnknownIsStranger(letters[1..], i - 1);
    }
  }

  /**
    * Which problem is reported, in this order: the type; a missing major (a panic) or one above 2^32 - 1; the same for
    * the minor, where the message names the major; the first unknown letter.
    */
  lemma FirstProblemExact(dev: Device, i: nat)
    ensures var known := dev.typ == "a" || dev.typ == "b" || dev.typ == "c";
            var majorFits := dev.major.Some? && dev.major.value <= 0xFFFF_FFFF;
            var minorFits := dev.minor.Some? && dev.minor.value <= 0xFFFF_FFFF;
            && (!known ==> FirstProblem(dev) == Some(InvalidType(dev.typ)))
            && (known && dev.major == None ==> FirstProblem(dev) == Some(NilNumber))
            && (known && dev.major.Some? && !majorFits ==> FirstProblem(dev) == Some(InvalidMajor(dev.major.value)))
            && (known && majorFits && dev.minor == None ==> FirstProblem(dev) == Some(NilNumber))
            && (known && majorFits && dev.minor.Some? && !minorFits ==>
                  FirstProblem(dev) == Some(InvalidMinor(dev.major.value)))
            && (known && majorFits && minorFits && FirstStranger(dev.access, i) ==>
                  FirstProblem(dev) == Some(UnknownAccess(dev.access[i])))
  {
    if FirstStranger(dev.access, i) {
      FirstUnknownIsStranger(dev.access, i);
    }
  }

  /** The compiler fails with e: the last faulty rule that it looks at has e as its first problem. */
  ghost predicate FailsAt(devices: seq<Device>, i: nat, e: Error) {
    && Live(devices, i) && FirstProblem(devices[i]) == Some(e)
    && forall j :: i < j < |devices| ==> FirstProblem(devices[j]) == None
  }

  lemma FailsAtCons(dev: Device, rest: seq<Device>, i: nat, e: Error)
    requires FailsAt(rest, i, e)
    ensures FailsAt([dev] + rest, i + 1, e)
  {
    var all := [dev] + rest;
    assert forall j :: 0 < j < |all| ==> all[j] == rest[j - 1];
  }

  /** A rule put in front of a list that compiles is refused exactly when it is looked at and has a problem. */
  lemma FrontRule(dev: Device, rest: seq<Device>)
    requires Built(rest).Ok?
    ensures Live([dev] + rest, 0) <==> !Built(rest).value.hasWildCard
    ensures Built([dev] + rest).Err? <==> Live([dev] + rest, 0) && FirstProblem(dev) != None
    ensures Built([dev] + rest).Err? ==> Built([dev] + rest).error == FirstProblem(dev).value
  {
    var all := [dev] + rest;
    assert all[1..] == rest && forall j :: 0 < j < |all| ==> all[j] == rest[j - 1];
    BuiltInvariant(rest);
    if k :| 0 <= k < |rest| && IsWildcard(rest[k]) {
      assert all[k + 1] == rest[k];
    }
  }

  lemma LiveCons(dev: Device, rest: seq<Device>, i: nat)
    ensures Live([dev] + rest, i + 1) <==> Live(rest, i)
  {
    var all := [dev] + rest;
    assert forall j :: 0 < j < |all| ==> all[j] == rest[j - 1];
    assert forall j :: 0 <= j < |rest| ==> all[j + 1] == rest[j];
  }

  ghost predicate Refused(devices: seq<Device>) {
    exists i: nat :: Live(devices, i) && FirstProblem(devices[i]) != None
  }

  lemma RefusedCons(dev: Device, rest: seq<Device>)
    ensures Refused([dev] + rest) <==> Refused(rest) || (Live([dev] + rest, 0) && FirstProblem(dev) != None)
  {
    var all := [dev] + rest;
    if i: nat :| Live(all, i) && FirstProblem(all[i]) != None {
      if i > 0 {
        LiveCons(dev, rest, i - 1);
        assert all[i] == rest[i - 1];
      }
    }
    if i: nat :| Live(rest, i) && FirstProblem(rest[i]) != None {
      LiveCons(dev, rest, i);
      assert all[i + 1] == rest[i];
    }
  }

  /**
    * Exactly which lists are refused: those in which some rule after the last wildcard, or that wildcard, has a
    * problem.
    */
  lemma {:induction false} RefusedIff(devices: seq<Device>)
    ensures Compiled(devices).Err? <==> Refused(devices)
  {
    if devices != [] {
      var dev, rest := devices[0], devices[1..];
      assert [dev] + rest == devices;
      RefusedIff(rest);
      RefusedCons(dev, rest);
      if Built(rest).Ok? {
        FrontRule(dev, rest);
      }
    }
  }

  /** And with which error: the first problem of the last faulty rule. */
  lemma {:induction false} RefusedWith(devices: seq<Device>, e: Error)
    requires Compiled(devices) == Err(e)
    ensures exists i: nat :: FailsAt(devices, i, e)
  {
    var dev, rest := devices[0], devices[1..];
    assert [dev] + rest == devices;
    if Built(rest).Err? {
      RefusedWith(rest, e);
      var i: nat :| FailsAt(rest, i, e);
      FailsAtCons(dev, rest, i, e);
    } else {
      FrontRule(dev, rest);
      RefusedIff(rest);
      forall j | 0 < j < |devices|
        ensures FirstProblem(devices[j]) == None
      {
        assert Live(devices, j);
        LiveCons(dev, rest, j - 1);
      }
      assert FailsAt(devices, 0, e);
    }
  }

  /** When every rule denies all access, the program, if there is one, rejects every request. */
  lemma {:induction false} SkippableRejects(devices: seq<Device>, req: Request, code: Code)
    requires Skippable(devices) && Compiled(devices) == Ok(code)
    ensures Run(code, Encode(req), Start(), |code|) == Exited(0)
  {
    FilterDecides(devices, req, code);
    SkippableNeverAllows(devices, req);
  }

  /**
    * After finalize, appendDevice fails; only a program that ended with a wildcard takes the rule without a word, as it
    * did before.
    */
  lemma FinalizedIsFinal(devices: seq<Device>, dev: Device)
    requires Built(devices).Ok?
    ensures var b := Built(devices).value;
            Appended(Finished(b), dev) == if b.hasWildCard then Ok(b) else Err(Finalized)
  {
  }

  // ----- The entry point -----

  lemma {:induction false} ErrorsPropagate(devices: seq<Device>, i: nat)
    requires i <= |devices| && Built(devices[i..]).Err?
    ensures Built(devices) == Built(devices[i..])
  {
    BuiltAppend(devices[..i], devices[i..]);
    assert devices[..i] + devices[i..] == devices;
  }

  method DeviceFilter(devices: seq<Device>) returns (r: Result<Code, Error>)
    ensures r == Compiled(devices)
    ensures r.Ok? ==> WellFormed(r.value)
    ensures r.Ok? ==> forall req ::
              Run(r.value, Encode(req), Start(), |r.value|)
              == Exited(if Verdict(devices, req) == Some(true) then 1 else 0)
  {
    var p := new Program();
    p.Init();
    var i := |devices|;
    assert devices[i..] == [];
    assert p.insts == Prologue;
    while i > 0
      invariant 0 <= i <= |devices|
      invariant Built(devices[i..]) == Ok(p.Fields())
    {
      i := i - 1;
      assert devices[i..][1..] == devices[i + 1..];
      var err := p.AppendDevice(devices[i]);
      if err.Some? {
        ErrorsPropagate(devices, i);
        return Err(err.value);
      }
    }
    assert devices[0..] == devices;
    var code := p.Finalize();
    r := Ok(code);
    FilterIsWellFormed(devices);
    forall req
      ensures Run(code, Encode(req), Start(), |code|) == Exited(if Verdict(devices, req) == Some(true) then 1 else 0)
    {
      FilterDecides(devices, req, code);
    }
  }
}
