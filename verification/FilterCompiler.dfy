/**
  * The device filter compiler: a list of device rules becomes an eBPF program. Rules are compiled from the last to
  * the first; each becomes one labelled block that jumps to the next block when the rule does not match.
  */
module FilterCompiler {
  import opened Words
  import opened Wrappers
  import opened Ebpf
  import opened DeviceRules
  import opened Strconv

  datatype Error =
    | Finalized
    | InvalidType(typ: string)
    | NilNumber                 // dereferencing a nil Major or Minor: a run-time panic
    | InvalidMajor(n: int)
    | InvalidMinor(n: int)      // carries the major number: the message about a bad minor names the major
    | UnknownAccess(letter: char)

  function BlockSym(id: int): string {
    "block-" + FormatInt(id)
  }

  lemma BlockSymInjective(i: nat, j: nat)
    requires BlockSym(i) == BlockSym(j)
    ensures i == j
  {
    assert BlockSym(i)[6..] == FormatInt(i) && BlockSym(j)[6..] == FormatInt(j);
    FormatUintInjective(i, j);
  }

  // ----- What each rule compiles to -----

  /** The access mask of the letters that occur. */
  function Mask(letters: string): (m: nat)
    ensures m < 8
  {
    (if 'm' in letters then ACC_MKNOD else 0) + (if 'r' in letters then ACC_READ else 0)
    + (if 'w' in letters then ACC_WRITE else 0)
  }

  predicate IsAccessLetter(c: char) {
    c == 'r' || c == 'w' || c == 'm'
  }

  function FirstUnknown(letters: string): Option<char> {
    if letters == "" then None
    else if !IsAccessLetter(letters[0]) then Some(letters[0])
    else FirstUnknown(letters[1..])
  }

  function FirstProblem(dev: Device): Option<Error> {
    if dev.typ != "a" && dev.typ != "b" && dev.typ != "c" then Some(InvalidType(dev.typ))
    else if dev.major == None then Some(NilNumber)
    else if dev.major.value >= TWO_32 then Some(InvalidMajor(dev.major.value))
    else if dev.minor == None then Some(NilNumber)
    else if dev.minor.value >= TWO_32 then Some(InvalidMinor(dev.major.value))
    else
      match FirstUnknown(dev.access)
      case Some(c) => Some(UnknownAccess(c))
      case None => None
  }

  /** Go's conversion to int32: wraps. */
  function ToInt32(n: int): Int32 {
    var low := n % TWO_32;
    if low >= 0x8000_0000 then low - TWO_32 else low
  }

  function TypeCheck(typ: string, next: string): Code {
    if typ == "a" then []
    else [Plain(JNEImm(R2, if typ == "c" then DEV_CHAR else DEV_BLOCK, next))]
  }

  function AccessCheck(letters: string, next: string): Code {
    if Mask(letters) == ACC_READ + ACC_WRITE + ACC_MKNOD then []
    else [Plain(MovReg32(R1, R3)), Plain(AndImm32(R1, Mask(letters))), Plain(JEqImm(R1, 0, next))]
  }

  function NumberCheck(r: Reg, n: int, next: string): Code {
    if n < 0 then [] else [Plain(JNEImm(r, ToInt32(n), next))]
  }

  function AcceptBlock(accept: bool): (code: Code)
    ensures |code| == 2
  {
    [Plain(MovImm32(R0, if accept then 1 else 0)), Plain(Exit)]
  }

  function Body(dev: Device, next: string): (code: Code)
    requires FirstProblem(dev) == None
    ensures |code| >= 2
  {
    TypeCheck(dev.typ, next) + (AccessCheck(dev.access, next) + (NumberCheck(R4, dev.major.value, next)
    + (NumberCheck(R5, dev.minor.value, next) + AcceptBlock(dev.allow))))
  }

  function Labelled(code: Code, sym: string): (r: Code)
    requires code != []
    ensures |r| == |code|
  {
    code[0 := code[0].WithSymbol(sym)]
  }

  function Block(dev: Device, id: nat): (code: Code)
    requires FirstProblem(dev) == None
    ensures |code| >= 2
  {
    Labelled(Body(dev, BlockSym(id + 1)), BlockSym(id))
  }

  // ----- The builder -----

  /** The fields of the builder, as a value. */
  datatype Builder = Builder(insts: Code, hasWildCard: bool, blockID: int)

  const Prologue: Code := [
    Plain(LoadMem(R2, R1, 0, Half)),
    Plain(LoadMem(R3, R1, 0, Word)),
    Plain(RShImm32(R3, 16)),
    Plain(LoadMem(R4, R1, 4, Word)),
    Plain(LoadMem(R5, R1, 8, Word))
  ]

  function Appended(b: Builder, dev: Device): Result<Builder, Error> {
    if b.blockID < 0 then Err(Finalized)
    else if b.hasWildCard then Ok(b)
    else
      match FirstProblem(dev)
      case Some(e) => Err(e)
      case None =>
        Ok(Builder(b.insts + Block(dev, b.blockID),
                   dev.typ == "a" && Mask(dev.access) == 7 && dev.major.value < 0 && dev.minor.value < 0,
                   b.blockID + 1))
  }

  function Finished(b: Builder): Builder {
    if b.hasWildCard then b
    else Builder(b.insts + Labelled(AcceptBlock(false), BlockSym(b.blockID)), false, -1)
  }

  /** The state of the builder after it was given the rules from the last to the first. */
  function Built(devices: seq<Device>): (r: Result<Builder, Error>)
    ensures r.Ok? ==> r.value.blockID >= 0
  {
    if devices == [] then Ok(Builder(Prologue, false, 0))
    else
      match Built(devices[1..])
      case Err(e) => Err(e)
      case Ok(b) => Appended(b, devices[0])
  }

  function Compiled(devices: seq<Device>): Result<Code, Error> {
    match Built(devices)
    case Err(e) => Err(e)
    case Ok(b) => Ok(Finished(b).insts)
  }

  class Program {
    var insts: Code
    var hasWildCard: bool
    var blockID: int

    function Fields(): Builder
      reads this
    {
      Builder(insts, hasWildCard, blockID)
    }

    constructor ()
      ensures Fields() == Builder([], false, 0)
    {
      insts, hasWildCard, blockID := [], false, 0;
    }

    /** init: load the request into R2 to R5. */
    method Init()
      modifies this
      ensures Fields() == Builder(old(insts) + Prologue, old(hasWildCard), old(blockID))
    {
      insts := insts + [Plain(LoadMem(R2, R1, 0, Half))];
      insts := insts + [Plain(LoadMem(R3, R1, 0, Word)), Plain(RShImm32(R3, 16))];
      insts := insts + [Plain(LoadMem(R4, R1, 4, Word))];
      insts := insts + [Plain(LoadMem(R5, R1, 8, Word))];
      assert insts == old(insts) + Prologue;
    }

    /**
      * appendDevice: compile one rule. On an error nothing changes; otherwise earlier instructions stay as they were.
      */
    method AppendDevice(dev: Device) returns (err: Option<Error>)
      modifies this
      ensures match Appended(old(Fields()), dev)
              case Ok(b) => err == None && Fields() == b
              case Err(e) => err == Some(e) && Fields() == old(Fields())
      ensures old(insts) <= insts
    {
      if blockID < 0 {
        return Some(Finalized);
      }
      if hasWildCard {
        return None;
      }
      var bpfType: Int32 := -1;
      var hasType := true;
      match dev.typ {
        case "c" => bpfType := DEV_CHAR;
        case "b" => bpfType := DEV_BLOCK;
        case "a" => hasType := false;
        case _ => return Some(InvalidType(dev.typ));
      }
      if dev.major == None {
        return Some(NilNumber);
      }
      if dev.major.value > 0xFFFF_FFFF {
        return Some(InvalidMajor(dev.major.value));
      }
      if dev.minor == None {
        return Some(NilNumber);
      }
      if dev.minor.value > 0xFFFF_FFFF {
        return Some(InvalidMinor(dev.major.value));
      }
      var hasMajor := dev.major.value >= 0;
      var hasMinor := dev.minor.value >= 0;
      var bpfAccess, unknown := ParseAccess(dev.access);
      if unknown.Some? {
        return Some(UnknownAccess(unknown.value));
      }
      var hasAccess := bpfAccess != ACC_READ + ACC_WRITE + ACC_MKNOD;

      Emit(dev, hasType, bpfType, hasAccess, bpfAccess, hasMajor, hasMinor);
      return None;
    }

    /** The second half of appendDevice: emit the block of a rule that has been checked, then label its start. */
    method Emit(dev: Device, hasType: bool, bpfType: Int32, hasAccess: bool, bpfAccess: Int32, hasMajor: bool,
                hasMinor: bool)
      requires FirstProblem(dev) == None && blockID >= 0 && !hasWildCard
      requires hasType <==> dev.typ != "a"
      requires hasType ==> bpfType == if dev.typ == "c" then DEV_CHAR else DEV_BLOCK
      requires bpfAccess == Mask(dev.access) && (hasAccess <==> bpfAccess != 7)
      requires (hasMajor <==> dev.major.value >= 0) && (hasMinor <==> dev.minor.value >= 0)
      modifies this
      ensures Appended(old(Fields()), dev) == Ok(Fields())
    {
      hide BlockSym, ToInt32, Mask, Labelled;
      var blockSym := BlockSym(blockID);
      var nextBlockSym := BlockSym(blockID + 1);
      var prevBlockLastIdx := |insts| - 1;
      ghost var start := insts;
      if hasType {
        insts := insts + [Plain(JNEImm(R2, bpfType, nextBlockSym))];
      }
      ghost var typeCheck := TypeCheck(dev.typ, nextBlockSym);
      assert insts == start + typeCheck;
      if hasAccess {
        insts := insts + [
          Plain(MovReg32(R1, R3)),
          Plain(AndImm32(R1, bpfAccess)),
          Plain(JEqImm(R1, 0, nextBlockSym))
        ];
      }
      ghost var accessCheck := AccessCheck(dev.access, nextBlockSym);
      assert insts == start + typeCheck + accessCheck;
      if hasMajor {
        insts := insts + [Plain(JNEImm(R4, ToInt32(dev.major.value), nextBlockSym))];
      }
      ghost var majorCheck := NumberCheck(R4, dev.major.value, nextBlockSym);
      assert insts == start + typeCheck + accessCheck + majorCheck;
      if hasMinor {
        insts := insts + [Plain(JNEImm(R5, ToInt32(dev.minor.value), nextBlockSym))];
      }
      ghost var minorCheck := NumberCheck(R5, dev.minor.value, nextBlockSym);
      assert insts == start + typeCheck + accessCheck + majorCheck + minorCheck;
      if !hasType && !hasAccess && !hasMajor && !hasMinor {
        hasWildCard := true;
      }
      insts := insts + AcceptBlock(dev.allow);
      FiveParts(start, typeCheck, accessCheck, majorCheck, minorCheck, AcceptBlock(dev.allow));
      // the block is complete, so its first instruction is at prevBlockLastIdx + 1 and can carry the block's label
      insts := insts[prevBlockLastIdx + 1 := insts[prevBlockLastIdx + 1].WithSymbol(blockSym)];
      LabelAfter(start, Body(dev, nextBlockSym), blockSym);
      blockID := blockID + 1;
    }

    /** finalize: unless the last block always decides, add the block that denies. */
    method Finalize() returns (code: Code)
      modifies this
      ensures Fields() == Finished(old(Fields())) && code == insts
    {
      if hasWildCard {
        return insts;
      }
      var blockSym := BlockSym(blockID);
      insts := insts + [Plain(MovImm32(R0, 0)).WithSymbol(blockSym), Plain(Exit)];
      assert insts == old(insts) + Labelled(AcceptBlock(false), blockSym);
      blockID := -1;
      return insts;
    }
  }

  lemma FiveParts(s: Code, a: Code, b: Code, c: Code, d: Code, e: Code)
    ensures s + a + b + c + d + e == s + (a + (b + (c + (d + e))))
  {
  }

  lemma LabelAfter(start: Code, code: Code, sym: string)
    requires code != []
    ensures (start + code)[|start| := (start + code)[|start|].WithSymbol(sym)] == start + Labelled(code, sym)
  {
  }

  lemma OrLetter(mask: nat, bit: nat)
    requires mask < 8 && (bit == 1 || bit == 2 || bit == 4)
    ensures BitOr(mask, bit) == if mask / bit % 2 == 1 then mask else mask + bit
  {
  }

  /** The access loop of appendDevice: or the letters' bits together, stop at the first unknown letter. */
  method ParseAccess(letters: string) returns (mask: nat, unknown: Option<char>)
    ensures unknown == FirstUnknown(letters)
    ensures unknown == None ==> mask == Mask(letters)
  {
    mask := 0;
    for i := 0 to |letters|
      invariant mask == Mask(letters[..i])
      invariant FirstUnknown(letters) == FirstUnknown(letters[i..])
    {
      assert letters[..i + 1] == letters[..i] + [letters[i]];
      assert letters[i..][1..] == letters[i + 1..];
      match letters[i] {
        case 'r' => OrLetter(mask, 2); mask := BitOr(mask, ACC_READ);
        case 'w' => OrLetter(mask, 4); mask := BitOr(mask, ACC_WRITE);
        case 'm' => OrLetter(mask, 1); mask := BitOr(mask, ACC_MKNOD);
        case c => return mask, Some(c);
      }
    }
    assert letters[..|letters|] == letters;
    unknown := None;
  }
}
