/** Decimal printing and bounded decimal parsing: `strconv` in base 10, and the repository's parseUint on top of it. */
module Strconv {
  import opened Wrappers

  datatype NumError = Syntax | Range

  predicate IsDigit(c: char) {
    '0' <= c <= '9'
  }

  predicate AllDigits(s: string) {
    forall i :: 0 <= i < |s| ==> IsDigit(s[i])
  }

  function DigitValue(c: char): (d: nat)
    requires IsDigit(c)
  {
    c as int - '0' as int
  }

  function DigitChar(d: nat): (c: char)
    requires d < 10
    ensures IsDigit(c) && DigitValue(c) == d
  {
    (d + '0' as int) as char
  }

  /** The number that `acc` followed by the digits `s` denotes. */
  function Value(acc: nat, s: string): nat
    requires AllDigits(s)
    decreases |s|
  {
    if s == "" then acc else Value(10 * acc + DigitValue(s[0]), s[1..])
  }

  function FormatUint(n: nat): (s: string)
    ensures s != "" && AllDigits(s)
  {
    if n < 10 then [DigitChar(n)] else FormatUint(n / 10) + [DigitChar(n % 10)]
  }

  function FormatInt(n: int): string {
    if n < 0 then "-" + FormatUint(-n) else FormatUint(n)
  }

  lemma {:induction false} ValueSnoc(acc: nat, s: string, c: char)
    requires AllDigits(s) && IsDigit(c)
    ensures AllDigits(s + [c])
    ensures Value(acc, s + [c]) == 10 * Value(acc, s) + DigitValue(c)
    decreases |s|
  {
    if s == "" {
      assert s + [c] == [c];
      assert [c][1..] == "";
    } else {
      assert (s + [c])[1..] == s[1..] + [c];
      ValueSnoc(10 * acc + DigitValue(s[0]), s[1..], c);
    }
  }

  lemma {:induction false} FormatUintValue(n: nat)
    ensures Value(0, FormatUint(n)) == n
  {
    if n < 10 {
      assert FormatUint(n)[1..] == "";
    } else {
      FormatUintValue(n / 10);
      ValueSnoc(0, FormatUint(n / 10), DigitChar(n % 10));
    }
  }

  /** Different numbers print differently. */
  lemma FormatUintInjective(m: nat, n: nat)
    requires FormatUint(m) == FormatUint(n)
    ensures m == n
  {
    FormatUintValue(m);
    FormatUintValue(n);
  }

  lemma {:induction false} ValueGrows(acc: nat, s: string)
    requires AllDigits(s)
    ensures Value(acc, s) >= acc
    decreases |s|
  {
    if s != "" {
      ValueGrows(10 * acc + DigitValue(s[0]), s[1..]);
    }
  }

  /** The digit loop of `strconv.ParseUint`. It stops at the first bad character or at the first overflow. */
  function ParseDigits(acc: nat, s: string, max: nat): Result<nat, NumError>
    decreases |s|
  {
    if s == "" then Ok(acc)
    else if !IsDigit(s[0]) then Err(Syntax)
    else if 10 * acc + DigitValue(s[0]) > max then Err(Range)
    else ParseDigits(10 * acc + DigitValue(s[0]), s[1..], max)
  }

  /** `strconv.ParseUint(s, 10, bits)`, where max is 2^bits - 1. */
  function ParseUint(s: string, max: nat): Result<nat, NumError> {
    if s == "" then Err(Syntax) else ParseDigits(0, s, max)
  }

  /** Some leading digits of s already denote more than max. */
  ghost predicate Overflows(acc: nat, s: string, max: nat) {
    exists k :: 0 < k <= |s| && AllDigits(s[..k]) && Value(acc, s[..k]) > max
  }

  lemma {:induction false} OverflowsStep(acc: nat, s: string, max: nat)
    requires s != "" && IsDigit(s[0]) && acc <= max
    requires 10 * acc + DigitValue(s[0]) <= max
    ensures Overflows(acc, s, max) <==> Overflows(10 * acc + DigitValue(s[0]), s[1..], max)
  {
    var next := 10 * acc + DigitValue(s[0]);
    if Overflows(acc, s, max) {
      var k :| 0 < k <= |s| && AllDigits(s[..k]) && Value(acc, s[..k]) > max;
      assert s[..k][1..] == s[1..][..k - 1];
      assert AllDigits(s[1..][..k - 1]) && Value(next, s[1..][..k - 1]) > max;
    }
    if Overflows(next, s[1..], max) {
      var k :| 0 < k <= |s[1..]| && AllDigits(s[1..][..k]) && Value(next, s[1..][..k]) > max;
      assert s[..k + 1] == [s[0]] + s[1..][..k];
      assert s[..k + 1][1..] == s[1..][..k];
      assert AllDigits(s[..k + 1]) && Value(acc, s[..k + 1]) > max;
    }
  }

  /** Exactly which inputs the digit loop accepts, and exactly which it calls out of range. */
  lemma {:induction false} ParseDigitsExact(acc: nat, s: string, max: nat)
    requires acc <= max
    ensures ParseDigits(acc, s, max).Ok? <==> AllDigits(s) && Value(acc, s) <= max
    ensures ParseDigits(acc, s, max).Ok? ==> ParseDigits(acc, s, max).value == Value(acc, s)
    ensures ParseDigits(acc, s, max) == Err(Range) <==> Overflows(acc, s, max)
    decreases |s|
  {
    if s == "" {
    } else if !IsDigit(s[0]) {
      assert forall k :: 0 < k <= |s| ==> s[..k][0] == s[0];
    } else if 10 * acc + DigitValue(s[0]) > max {
      if AllDigits(s) {
        ValueGrows(10 * acc + DigitValue(s[0]), s[1..]);
      }
      assert s[..1][1..] == "";
      assert AllDigits(s[..1]) && Value(acc, s[..1]) > max;
    } else {
      OverflowsStep(acc, s, max);
      ParseDigitsExact(10 * acc + DigitValue(s[0]), s[1..], max);
      assert AllDigits(s) <==> AllDigits(s[1..]) by {
        assert s == [s[0]] + s[1..];
      }
    }
  }

  lemma ParseUintOfFormat(n: nat, max: nat)
    requires n <= max
    ensures ParseUint(FormatUint(n), max) == Ok(n)
  {
    ParseDigitsExact(0, FormatUint(n), max);
    FormatUintValue(n);
  }

  /** What `strconv.ParseInt` returns: the value is meaningful even when err says out of range. */
  datatype IntResult = IntResult(value: int, err: Option<NumError>)

  function ParseMagnitude(neg: bool, digits: string, cutoff: nat): IntResult
    requires cutoff > 0
  {
    var max := 2 * cutoff - 1;
    match ParseUint(digits, max)
    case Err(Syntax) => IntResult(0, Some(Syntax))
    case other =>
      var un := if other.Ok? then other.value else max;
      if !neg && un >= cutoff then IntResult(cutoff - 1, Some(Range))
      else if neg && un > cutoff then IntResult(-(cutoff as int), Some(Range))
      else IntResult(if neg then -(un as int) else un, None)
  }

  /** `strconv.ParseInt(s, 10, bits)`, where cutoff is 2^(bits-1): one optional sign, then digits. */
  function ParseInt(s: string, cutoff: nat): IntResult
    requires cutoff > 0
  {
    if s == "" then IntResult(0, Some(Syntax))
    else if s[0] == '+' then ParseMagnitude(false, s[1..], cutoff)
    else if s[0] == '-' then ParseMagnitude(true, s[1..], cutoff)
    else ParseMagnitude(false, s, cutoff)
  }

  /** A decimal number with at most one sign in front. */
  predicate IsSigned(s: string) {
    var digits := Unsigned(s);
    digits != "" && AllDigits(digits)
  }

  /** What follows the sign, if there is one. */
  function Unsigned(s: string): string {
    if s != "" && (s[0] == '+' || s[0] == '-') then s[1..] else s
  }

  function SignedValue(s: string): int
    requires IsSigned(s)
  {
    if s[0] == '-' then -(Value(0, Unsigned(s)) as int) else Value(0, Unsigned(s))
  }

  /** Exactly what a signed parse accepts: an optionally signed decimal in range, with its value. */
  lemma ParseIntExact(s: string, cutoff: nat)
    requires cutoff > 1
    ensures ParseInt(s, cutoff).err == None <==> IsSigned(s) && -(cutoff as int) <= SignedValue(s) < cutoff
    ensures ParseInt(s, cutoff).err == None ==> ParseInt(s, cutoff).value == SignedValue(s)
    ensures ParseInt(s, cutoff).err == Some(Range) <==>
              || Overflows(0, Unsigned(s), 2 * cutoff - 1)
              || (IsSigned(s) && !(-(cutoff as int) <= SignedValue(s) < cutoff))
  {
    if s != "" {
      var digits := Unsigned(s);
      ParseDigitsExact(0, digits, 2 * cutoff - 1);
      if AllDigits(digits) && digits != "" && Value(0, digits) >= 2 * cutoff {
        assert digits[..|digits|] == digits;
        assert Overflows(0, digits, 2 * cutoff - 1);
      }
    }
  }

  /** An integer is printed as its digits, after a minus sign if it is negative. */
  lemma FormatIntCanonical(n: int)
    ensures n >= 0 ==> AllDigits(FormatInt(n)) && FormatInt(n) != "" && Value(0, FormatInt(n)) == n
    ensures n < 0 ==> var s := FormatInt(n);
              s[0] == '-' && AllDigits(s[1..]) && s[1..] != "" && Value(0, s[1..]) == -n && s[1] != '0'
  {
    FormatUintValue(if n < 0 then -n else n);
    FormatUintCanonical(if n < 0 then -n else n);
  }

  /** A number is printed without leading zeros. */
  lemma {:induction false} FormatUintCanonical(n: nat)
    ensures n == 0 ==> FormatUint(n) == "0"
    ensures n > 0 ==> FormatUint(n)[0] != '0'
  {
    if n >= 10 {
      FormatUintCanonical(n / 10);
    }
  }

  lemma ParseIntOfFormat(n: int, cutoff: nat)
    requires cutoff > 0 && -(cutoff as int) <= n < cutoff
    ensures ParseInt(FormatInt(n), cutoff) == IntResult(n, None)
  {
    if n < 0 {
      ParseUintOfFormat(-n, 2 * cutoff - 1);
      assert FormatInt(n)[1..] == FormatUint(-n);
    } else {
      ParseUintOfFormat(n, 2 * cutoff - 1);
      assert IsDigit(FormatUint(n)[0]);
    }
  }

  /** The repository's parseUint: an unsigned parse that maps negative decimals to 0. cutoff is 2^(bits-1). */
  function ParseClamped(s: string, cutoff: nat): Result<nat, NumError>
    requires cutoff > 0
  {
    match ParseUint(s, 2 * cutoff - 1)
    case Ok(v) => Ok(v)
    case Err(e) =>
      var signed := ParseInt(s, cutoff);
      if signed.err == None && signed.value < 0 then Ok(0)
      else if signed.err == Some(Range) && signed.value < 0 then Ok(0)
      else Err(e)
  }

  /** A minus sign followed by digits that denote something positive, or whose leading digits already overflow. */
  ghost predicate NegativeDecimal(s: string, max: nat) {
    && s != "" && s[0] == '-'
    && (Overflows(0, s[1..], max) || (AllDigits(s[1..]) && s[1..] != "" && 0 < Value(0, s[1..]) <= max))
  }

  /**
    * Exactly what parseUint accepts. In-range decimals keep their value and negative decimals become 0, but
    * "-0" is rejected, and a minus sign followed by overflowing digits is accepted whatever comes after them.
    */
  lemma ParseClampedExact(s: string, cutoff: nat)
    requires cutoff > 0
    ensures ParseClamped(s, cutoff).Ok? <==>
              (s != "" && AllDigits(s) && Value(0, s) < 2 * cutoff) || NegativeDecimal(s, 2 * cutoff - 1)
    ensures ParseClamped(s, cutoff).Ok? ==>
              ParseClamped(s, cutoff).value == if s[0] == '-' then 0 else Value(0, s)
  {
    var max := 2 * cutoff - 1;
    ParseDigitsExact(0, s, max);
    if s != "" {
      ParseDigitsExact(0, s[1..], max);
      if s[0] == '-' {
        assert !AllDigits(s);
        assert ParseUint(s, max) == Err(Syntax);
      } else if s[0] == '+' {
        assert !AllDigits(s);
      }
    }
  }

  /** The printed form of any in-range number is read back as that number. */
  lemma ParseClampedOfFormat(n: nat, cutoff: nat)
    requires n < 2 * cutoff
    ensures ParseClamped(FormatUint(n), cutoff) == Ok(n)
  {
    ParseUintOfFormat(n, 2 * cutoff - 1);
  }

  /** "-0" is refused, although it spells a number in range. */
  lemma MinusZeroIsRefused(cutoff: nat)
    requires cutoff > 0
    ensures ParseClamped("-0", cutoff) == Err(Syntax)
  {
    ParseDigitsExact(0, "0", 2 * cutoff - 1);
    assert "-0"[1..] == "0" && "0"[1..] == "";
  }

  /** A minus sign and digits that overflow are accepted with any text after them, "-99999999999999999999x" included. */
  lemma OverflowHidesJunk(n: nat, junk: string, cutoff: nat)
    requires cutoff > 0 && n >= 2 * cutoff
    ensures ParseClamped("-" + FormatUint(n) + junk, cutoff) == Ok(0)
  {
    var digits := FormatUint(n);
    var s := "-" + digits + junk;
    FormatUintValue(n);
    assert s[1..][..|digits|] == digits;
    assert Overflows(0, s[1..], 2 * cutoff - 1);
    ParseClampedExact(s, cutoff);
  }
}
