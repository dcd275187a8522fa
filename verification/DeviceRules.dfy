/** Device rules, device requests, and what a list of rules means: the specification the filter compiler is held to. */
module DeviceRules {
  import opened Words
  import opened Wrappers
  import opened Ebpf

  const DEV_BLOCK: nat := 1
  const DEV_CHAR: nat := 2
  const ACC_MKNOD: nat := 1
  const ACC_READ: nat := 2
  const ACC_WRITE: nat := 4
  const NARROW: nat := 0x8000_0000

  /** One rule of the OCI list. Major and minor are pointers there; None is nil. */
  datatype Device = Device(typ: string, major: Option<Int64>, minor: Option<Int64>, access: string, allow: bool)

  type U16 = n: nat | n < TWO_16
  type U32 = n: nat | n < TWO_32

  /** A device access as the kernel presents it: two 16-bit halves of one word, then two words. */
  datatype Request = Request(kind: U16, access: U16, major: U32, minor: U32)

  function BytesOf(x: U32): (b: seq<Byte>)
    ensures |b| == 4
  {
    [x % 256, x / 256 % 256, x / 65536 % 256, x / 16777216]
  }

  /** The kernel's struct bpf_cgroup_dev_ctx for a request, on a little-endian machine. */
  function Encode(req: Request): (mem: seq<Byte>)
    ensures |mem| == 12
  {
    BytesOf(req.access * TWO_16 + req.kind) + BytesOf(req.major) + BytesOf(req.minor)
  }

  // ----- The meaning of a rule and of a list -----

  predicate TypeMatches(typ: string, kind: nat) {
    typ == "a" || (typ == "c" && kind == DEV_CHAR) || (typ == "b" && kind == DEV_BLOCK)
  }

  /** The request asks for the access that the letter names. */
  predicate Asks(access: nat, letter: char) {
    || (letter == 'm' && access / ACC_MKNOD % 2 == 1)
    || (letter == 'r' && access / ACC_READ % 2 == 1)
    || (letter == 'w' && access / ACC_WRITE % 2 == 1)
  }

  predicate FullAccess(letters: string) {
    'r' in letters && 'w' in letters && 'm' in letters
  }

  predicate AccessMatches(letters: string, access: nat) {
    FullAccess(letters) || exists i :: 0 <= i < |letters| && Asks(access, letters[i])
  }

  /**
    * A negative number is a wildcard. An explicit number of 2^31 or more never matches: it is compared as a
    * sign-extended immediate with a zero-extended word.
    */
  predicate NumberMatches(n: Option<Int64>, v: nat) {
    n.Some? && (n.value < 0 || (n.value == v && v < NARROW))
  }

  predicate Matches(dev: Device, req: Request) {
    && TypeMatches(dev.typ, req.kind)
    && AccessMatches(dev.access, req.access)
    && NumberMatches(dev.major, req.major)
    && NumberMatches(dev.minor, req.minor)
  }

  /** The decision of the last matching rule, if any rule matches. */
  function Verdict(devices: seq<Device>, req: Request): Option<bool> {
    if devices == [] then None
    else if Verdict(devices[1..], req).Some? then Verdict(devices[1..], req)
    else if Matches(devices[0], req) then Some(devices[0].allow)
    else None
  }

  ghost predicate IsLastMatch(devices: seq<Device>, req: Request, i: nat) {
    && i < |devices| && Matches(devices[i], req)
    && forall j :: i < j < |devices| ==> !Matches(devices[j], req)
  }

  /** Verdict says what it should: the last match in list order decides, and there is no verdict without a match. */
  lemma {:induction false} VerdictIsLastMatch(devices: seq<Device>, req: Request)
    ensures Verdict(devices, req) == None <==> forall i :: 0 <= i < |devices| ==> !Matches(devices[i], req)
    ensures forall i: nat :: IsLastMatch(devices, req, i) ==> Verdict(devices, req) == Some(devices[i].allow)
  {
    if devices != [] {
      var rest := devices[1..];
      VerdictIsLastMatch(rest, req);
      assert forall i :: 0 < i < |devices| ==> devices[i] == rest[i - 1];
      if Verdict(rest, req) != None {
        var k :| 0 <= k < |rest| && Matches(rest[k], req);
        assert Matches(devices[k + 1], req);
      }
      forall i: nat | IsLastMatch(devices, req, i)
        ensures Verdict(devices, req) == Some(devices[i].allow)
      {
        if i > 0 {
          assert IsLastMatch(rest, req, i - 1);
        }
      }
    }
  }

  /** A rule that every request matches: what the compiler treats as the end of the list. */
  predicate IsWildcard(dev: Device) {
    && dev.typ == "a"
    && dev.major.Some? && dev.major.value < 0
    && dev.minor.Some? && dev.minor.value < 0
    && FullAccess(dev.access)
    && forall i :: 0 <= i < |dev.access| ==> dev.access[i] in "rwm"
  }

  // ----- The meaning without the 2^31 limit, and where the two differ -----

  predicate IntendedNumber(n: Option<Int64>, v: nat) {
    n.Some? && (n.value < 0 || n.value == v)
  }

  predicate IntendedMatches(dev: Device, req: Request) {
    && TypeMatches(dev.typ, req.kind)
    && AccessMatches(dev.access, req.access)
    && IntendedNumber(dev.major, req.major)
    && IntendedNumber(dev.minor, req.minor)
  }

  function IntendedVerdict(devices: seq<Device>, req: Request): Option<bool> {
    if devices == [] then None
    else if IntendedVerdict(devices[1..], req).Some? then IntendedVerdict(devices[1..], req)
    else if IntendedMatches(devices[0], req) then Some(devices[0].allow)
    else None
  }

  /** Neither number needs the top bit of a word. */
  predicate Narrow(dev: Device) {
    && (dev.major.Some? ==> dev.major.value < NARROW)
    && (dev.minor.Some? ==> dev.minor.value < NARROW)
  }

  /** Rule i is looked at: no wildcard comes after it. */
  ghost predicate Live(devices: seq<Device>, i: nat) {
    i < |devices| && forall j :: i < j < |devices| ==> !IsWildcard(devices[j])
  }

  lemma WildcardMatchesAll(dev: Device, req: Request)
    requires IsWildcard(dev)
    ensures Matches(dev, req) && IntendedMatches(dev, req)
  {
  }

  /** When no live rule uses a number of 2^31 or more, or else names no access, the list means what it says. */
  lemma {:induction false} NarrowListsMeanWhatTheySay(devices: seq<Device>, req: Request)
    requires forall i: nat :: Live(devices, i) ==> Narrow(devices[i]) || devices[i].access == ""
    ensures Verdict(devices, req) == IntendedVerdict(devices, req)
  {
    if devices != [] {
      var rest := devices[1..];
      assert forall j :: 0 < j < |devices| ==> devices[j] == rest[j - 1];
      forall i: nat | Live(rest, i)
        ensures Narrow(rest[i]) || rest[i].access == ""
      {
        assert Live(devices, i + 1);
      }
      NarrowListsMeanWhatTheySay(rest, req);
      if k :| 0 < k < |devices| && IsWildcard(devices[k]) {
        WildcardMatchesAll(devices[k], req);
        VerdictIsLastMatch(rest, req);
        assert Matches(rest[k - 1], req);
      } else {
        assert Live(devices, 0);
      }
    }
  }

  /** A request that a rule with non-empty access is intended to match. */
  function Provoking(dev: Device): Request
    requires dev.major.Some? && dev.major.value < TWO_32 && dev.minor.Some? && dev.minor.value < TWO_32
  {
    Request(if dev.typ == "b" then DEV_BLOCK else DEV_CHAR, ACC_MKNOD + ACC_READ + ACC_WRITE,
            if dev.major.value < 0 then 0 else dev.major.value,
            if dev.minor.value < 0 then 0 else dev.minor.value)
  }

  lemma LastOfTwo(first: Device, last: Device, req: Request)
    ensures Verdict([first] + [last], req) ==
            if Matches(last, req) then Some(last.allow) else if Matches(first, req) then Some(first.allow) else None
    ensures IntendedMatches(last, req) ==> IntendedVerdict([first] + [last], req) == Some(last.allow)
  {
    var devices := [first] + [last];
    assert devices[1..] == [last];
    assert devices[1..][1..] == [];
    assert devices[1..][0] == last && devices[0] == first;
    assert Verdict(devices[1..], req) == if Matches(last, req) then Some(last.allow) else None;
    assert IntendedVerdict(devices[1..], req) == if IntendedMatches(last, req) then Some(last.allow) else None;
  }

  /**
    * The condition is exact: placed last in every list of narrow rules, a valid rule behaves as intended if and
    * only if both numbers are below 2^31 or it names no access at all.
    */
  lemma RuleBehavesAsIntendedIff(dev: Device)
    requires dev.typ == "a" || dev.typ == "b" || dev.typ == "c"
    requires dev.major.Some? && dev.major.value < TWO_32 && dev.minor.Some? && dev.minor.value < TWO_32
    requires forall i :: 0 <= i < |dev.access| ==> dev.access[i] in "rwm"
    ensures Narrow(dev) || dev.access == "" <==>
            forall before: seq<Device>, req ::
              (forall i :: 0 <= i < |before| ==> Narrow(before[i])) ==>
                Verdict(before + [dev], req) == IntendedVerdict(before + [dev], req)
  {
    if Narrow(dev) || dev.access == "" {
      forall before: seq<Device>, req | forall i :: 0 <= i < |before| ==> Narrow(before[i])
        ensures Verdict(before + [dev], req) == IntendedVerdict(before + [dev], req)
      {
        NarrowListsMeanWhatTheySay(before + [dev], req);
      }
    } else {
      var everything := Device("a", Some(-1), Some(-1), "rwm", !dev.allow);
      var req := Provoking(dev);
      assert Asks(req.access, dev.access[0]);
      assert IntendedMatches(dev, req) && !Matches(dev, req);
      assert Matches(everything, req) by {
        assert everything.access[0] == 'r' && everything.access[1] == 'w' && everything.access[2] == 'm';
      }
      LastOfTwo(everything, dev, req);
      assert forall i :: 0 <= i < |[everything]| ==> Narrow([everything][i]);
    }
  }

  /** A concrete failure: allowing character device 2147483648:0 does not allow it. */
  lemma WideNumberIsNotAllowed()
    ensures var dev := Device("c", Some(NARROW), Some(0), "rwm", true);
            var req := Request(DEV_CHAR, ACC_READ, NARROW, 0);
            IntendedVerdict([dev], req) == Some(true) && Verdict([dev], req) == None
  {
    var dev := Device("c", Some(NARROW), Some(0), "rwm", true);
    assert [dev][1..] == [];
    assert dev.access[0] == 'r' && dev.access[1] == 'w' && dev.access[2] == 'm';
  }

  // ----- The second reading of the rules, used when the filter cannot be attached -----

  /** isRWM: scan the letters, raising one flag for each kind of access. */
  method IsRWM(permissions: string) returns (full: bool)
    ensures full <==> FullAccess(permissions)
  {
    var r, w, m := false, false, false;
    for i := 0 to |permissions|
      invariant r <==> 'r' in permissions[..i]
      invariant w <==> 'w' in permissions[..i]
      invariant m <==> 'm' in permissions[..i]
    {
      assert permissions[..i + 1] == permissions[..i] + [permissions[i]];
      match permissions[i] {
        case 'r' => r := true;
        case 'w' => w := true;
        case 'm' => m := true;
        case _ =>
      }
    }
    assert permissions[..|permissions|] == permissions;
    full := r && w && m;
  }

  ghost predicate Skippable(devices: seq<Device>) {
    forall i :: 0 <= i < |devices| ==> !devices[i].allow && FullAccess(devices[i].access)
  }

  /** canSkipEBPFError: every rule denies, and denies every kind of access. */
  method CanSkipEbpfError(devices: seq<Device>) returns (skip: bool)
    ensures skip <==> Skippable(devices)
  {
    for i := 0 to |devices|
      invariant Skippable(devices[..i])
    {
      var full := IsRWM(devices[i].access);
      if devices[i].allow || !full {
        return false;
      }
      assert devices[..i + 1] == devices[..i] + [devices[i]];
    }
    assert devices[..|devices|] == devices;
    skip := true;
  }

  lemma {:induction false} SkippableNeverAllows(devices: seq<Device>, req: Request)
    requires Skippable(devices)
    ensures Verdict(devices, req) != Some(true)
  {
    if devices != [] {
      SkippableNeverAllows(devices[1..], req);
    }
  }

  // ----- In the kernel's numbers -----

  /** The number that a rule gives stands against the number of the request; 2147483648 is 2^31. */
  predicate Admits(n: Option<Int64>, v: nat) {
    n.Some? && (n.value < 0 || (n.value == v && v < 2147483648))
  }

  /**
    * A rule against a request, in the kernel's numbers: type 1 is block and 2 is character; access bit 0 is mknod, bit
    * 1 is read, bit 2 is write.
    */
  lemma MatchesInNumbers(dev: Device, req: Request)
    ensures Matches(dev, req) <==>
            && (dev.typ == "a" || (dev.typ == "b" && req.kind == 1) || (dev.typ == "c" && req.kind == 2))
            && (|| ('r' in dev.access && 'w' in dev.access && 'm' in dev.access)
                || ('m' in dev.access && req.access % 2 == 1)
                || ('r' in dev.access && req.access / 2 % 2 == 1)
                || ('w' in dev.access && req.access / 4 % 2 == 1))
            && Admits(dev.major, req.major) && Admits(dev.minor, req.minor)
  {
    if 'm' in dev.access && req.access % 2 == 1 {
      LetterAsks(dev.access, 'm', req.access);
    }
    if 'r' in dev.access && req.access / 2 % 2 == 1 {
      LetterAsks(dev.access, 'r', req.access);
    }
    if 'w' in dev.access && req.access / 4 % 2 == 1 {
      LetterAsks(dev.access, 'w', req.access);
    }
  }

  lemma LetterAsks(letters: string, letter: char, access: nat)
    requires letter in letters && Asks(access, letter)
    ensures AccessMatches(letters, access)
  {
    var i :| 0 <= i < |letters| && letters[i] == letter;
  }
}
