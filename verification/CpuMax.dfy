/** The cpu.max value: how it is printed and read back, and how a quota becomes systemd's CPUQuotaPerSecUSec. */
module CpuMax {
  import opened Words
  import opened Wrappers
  import opened Strings
  import opened Strconv

  const MAX_INT64: nat := TWO_63 - 1
  const MAX_UINT64: nat := TWO_64 - 1
  const DEFAULT_PERIOD: nat := 100000

  datatype Error = InvalidFormat | BadNumber(e: NumError)

  function NewCPUMax(quota: Option<Int64>, period: Option<Uint64>): string {
    var max := if quota.Some? then FormatInt(quota.value) else "max";
    var duration := if period.Some? then FormatUint(period.value) else "100000";
    Join([max, duration], ' ')
  }

  function ToLower(s: string): (r: string)
    ensures |r| == |s|
  {
    if s == "" then ""
    else [Lower(s[0])] + ToLower(s[1..])
  }

  function Lower(c: char): char {
    if 'A' <= c <= 'Z' then (c as int + 32) as char else c
  }

  function ParseQuota(s: string): Result<int, Error> {
    if ToLower(s) == "max" then Ok(MAX_INT64)
    else
      var r := ParseInt(s, TWO_63);
      if r.err.Some? then Err(BadNumber(r.err.value)) else Ok(r.value)
  }

  function ParsePeriod(s: string): Result<nat, Error> {
    match ParseUint(s, MAX_UINT64)
    case Err(e) => Err(BadNumber(e))
    case Ok(v) => Ok(v)
  }

  function ExtractQuotaAndPeriod(c: string): Result<(int, nat), Error> {
    var values := Split(c, ' ');
    if |values| < 1 || |values| > 2 then Err(InvalidFormat)
    else
      match ParseQuota(values[0])
      case Err(e) => Err(e)
      case Ok(quota) =>
        if |values| == 1 then Ok((quota, DEFAULT_PERIOD))
        else
          match ParsePeriod(values[1])
          case Err(e) => Err(e)
          case Ok(period) => Ok((quota, period))
  }

  lemma {:induction false} DigitsAreFree(s: string, c: char)
    requires AllDigits(s) && !IsDigit(c)
    ensures Free(s, c)
  {
  }

  lemma DefaultPeriodText()
    ensures FormatUint(DEFAULT_PERIOD) == "100000"
  {
    assert FormatUint(1) == "1";
    assert FormatUint(10) == "10";
    assert FormatUint(100) == "100";
    assert FormatUint(1000) == "1000";
    assert FormatUint(10000) == "10000";
  }

  lemma QuotaReadsBack(q: Int64)
    ensures ParseQuota(FormatInt(q)) == Ok(q as int) && Free(FormatInt(q), ' ')
  {
    ParseIntOfFormat(q, TWO_63);
    var s := FormatInt(q);
    var magnitude: nat := if q < 0 then -(q as int) else q;
    DigitsAreFree(FormatUint(magnitude), ' ');
    assert s[0] == '-' || IsDigit(s[0]);
    assert ToLower(s)[0] == s[0];
    assert "max"[0] == 'm';
  }

  /** Printing and reading back returns the quota and the period that were given, or the kernel's defaults. */
  lemma RoundTrip(quota: Option<Int64>, period: Option<Uint64>)
    ensures ExtractQuotaAndPeriod(NewCPUMax(quota, period)) ==
            Ok((if quota.Some? then quota.value as int else MAX_INT64 as int,
                if period.Some? then period.value as nat else DEFAULT_PERIOD))
  {
    var max := if quota.Some? then FormatInt(quota.value) else "max";
    var p: nat := if period.Some? then period.value else DEFAULT_PERIOD;
    DefaultPeriodText();
    var duration := FormatUint(p);
    DigitsAreFree(duration, ' ');
    if quota.Some? {
      QuotaReadsBack(quota.value);
    } else {
      assert ToLower("max") == "max" by {
        assert "max"[1..] == "ax" && "ax"[1..] == "x" && "x"[1..] == "";
      }
    }
    SplitOfJoin([max, duration], ' ');
    ParseUintOfFormat(p, MAX_UINT64);
  }

  lemma ParseIntInRange(s: string)
    ensures -(TWO_63 as int) <= ParseInt(s, TWO_63).value < TWO_63
  {
  }

  /** Whatever text is accepted, the numbers fit their Go types, so printing them again loses nothing. */
  lemma AcceptedValuesRoundTrip(c: string)
    requires ExtractQuotaAndPeriod(c).Ok?
    ensures var (q, p) := ExtractQuotaAndPeriod(c).value;
            && -(TWO_63 as int) <= q < TWO_63 && p < TWO_64
            && ExtractQuotaAndPeriod(NewCPUMax(Some(q), Some(p))) == Ok((q, p))
  {
    var (q, p) := ExtractQuotaAndPeriod(c).value;
    var values := Split(c, ' ');
    ParseIntInRange(values[0]);
    if |values| == 2 {
      ParseDigitsExact(0, values[1], MAX_UINT64);
    }
    RoundTrip(Some(q), Some(p));
  }

  // ----- Exactly what is read -----

  /** "max", in any letter case. */
  predicate SpellsMax(w: string) {
    |w| == 3 && (w[0] == 'm' || w[0] == 'M') && (w[1] == 'a' || w[1] == 'A') && (w[2] == 'x' || w[2] == 'X')
  }

  lemma {:induction false} ToLowerAt(w: string, i: nat)
    requires i < |w|
    ensures ToLower(w)[i] == Lower(w[i])
  {
    if i > 0 {
      ToLowerAt(w[1..], i - 1);
    }
  }

  lemma ToLowerIsMax(w: string)
    ensures ToLower(w) == "max" <==> SpellsMax(w)
  {
    if |w| == 3 {
      ToLowerAt(w, 0);
      ToLowerAt(w, 1);
      ToLowerAt(w, 2);
      assert ToLower(w) == "max" <==> ToLower(w)[0] == 'm' && ToLower(w)[1] == 'a' && ToLower(w)[2] == 'x';
    }
  }

  /** The word stands for quota q. */
  ghost predicate QuotaWord(w: string, q: int) {
    || (SpellsMax(w) && q == 0x7FFF_FFFF_FFFF_FFFF)
    || (IsSigned(w) && q == SignedValue(w) && -0x8000_0000_0000_0000 <= q < 0x8000_0000_0000_0000)
  }

  /** The word stands for period p. */
  ghost predicate PeriodWord(w: string, p: nat) {
    w != "" && AllDigits(w) && p == Value(0, w) && p < 0x1_0000_0000_0000_0000
  }

  /** The text has one word, or two with a space between them, and they stand for q and p; the default is 100000. */
  ghost predicate QuotaAndPeriod(c: string, q: int, p: nat) {
    || (Free(c, ' ') && QuotaWord(c, q) && p == 100000)
    || exists a, b :: TwoWords(c, a, b) && QuotaWord(a, q) && PeriodWord(b, p)
  }

  ghost predicate TwoWords(c: string, a: string, b: string) {
    Free(a, ' ') && Free(b, ' ') && c == a + [' '] + b
  }

  lemma ParseQuotaExact(w: string, q: int)
    ensures ParseQuota(w) == Ok(q) <==> QuotaWord(w, q)
  {
    ToLowerIsMax(w);
    ParseIntExact(w, TWO_63);
    if SpellsMax(w) {
      assert !IsDigit(w[0]) && w[0] != '+' && w[0] != '-';
      assert Unsigned(w) == w && !IsSigned(w);
    }
  }

  lemma ParsePeriodExact(w: string, p: nat)
    ensures ParsePeriod(w) == Ok(p) <==> PeriodWord(w, p)
  {
    ParseDigitsExact(0, w, MAX_UINT64);
  }

  /** One word, two words, or more. */
  lemma WordsOf(c: string)
    ensures |Split(c, ' ')| == 1 <==> Free(c, ' ')
    ensures |Split(c, ' ')| == 1 ==> Split(c, ' ')[0] == c
    ensures forall a, b :: TwoWords(c, a, b) <==> Split(c, ' ') == [a, b]
  {
    JoinOfSplit(c, ' ');
    if Free(c, ' ') {
      SplitFree(c, ' ');
    }
    forall a, b
      ensures TwoWords(c, a, b) <==> Split(c, ' ') == [a, b]
    {
      if TwoWords(c, a, b) {
        SplitHead(a, ' ', b);
        SplitFree(b, ' ');
      }
      if Split(c, ' ') == [a, b] {
        TwoParts(c, a, b);
      }
    }
  }

  lemma TwoParts(c: string, a: string, b: string)
    requires Split(c, ' ') == [a, b]
    ensures TwoWords(c, a, b)
  {
    JoinOfSplit(c, ' ');
    assert [a, b][0] == a && [a, b][1] == b && [a, b][1..] == [b];
  }

  /**
    * Exactly which texts are accepted, and what they give: a quota, and a period or 100000. A text of more than two
    * words is refused as such; any other is refused for one of its numbers.
    */
  lemma ExtractExact(c: string)
    ensures forall q: int, p: nat :: ExtractQuotaAndPeriod(c) == Ok((q, p)) <==> QuotaAndPeriod(c, q, p)
    ensures ExtractQuotaAndPeriod(c) == Err(InvalidFormat) <==> !Free(c, ' ') && forall a, b :: !TwoWords(c, a, b)
  {
    hide QuotaWord, PeriodWord, TwoWords, ToLower;
    var values := Split(c, ' ');
    WordsOf(c);
    if |values| == 2 {
      assert values == [values[0], values[1]];
      assert TwoWords(c, values[0], values[1]);
    }
    forall q: int, p: nat
      ensures ExtractQuotaAndPeriod(c) == Ok((q, p)) <==> QuotaAndPeriod(c, q, p)
    {
      ParseQuotaExact(values[0], q);
      if |values| == 2 {
        ParsePeriodExact(values[1], p);
        assert TwoWords(c, values[0], values[1]);
      }
    }
    if |values| > 2 {
      assert forall a, b :: !TwoWords(c, a, b);
    }
  }

  /** The word is out of range: its digits overflow 64 bits, or it is a signed decimal that does not fit. */
  ghost predicate QuotaTooFar(w: string) {
    || Overflows(0, Unsigned(w), 0xFFFF_FFFF_FFFF_FFFF)
    || (IsSigned(w) && !(-0x8000_0000_0000_0000 <= SignedValue(w) < 0x8000_0000_0000_0000))
  }

  lemma QuotaRefused(w: string)
    ensures (forall q :: !QuotaWord(w, q)) ==>
              ParseQuota(w) == Err(BadNumber(if QuotaTooFar(w) then Range else Syntax))
    ensures (exists q :: QuotaWord(w, q)) ==> ParseQuota(w).Ok?
  {
    ToLowerIsMax(w);
    ParseIntExact(w, TWO_63);
    if SpellsMax(w) {
      assert QuotaWord(w, 0x7FFF_FFFF_FFFF_FFFF);
    } else if ParseInt(w, TWO_63).err == None {
      assert QuotaWord(w, SignedValue(w));
    }
    if q :| QuotaWord(w, q) {
      ParseQuotaExact(w, q);
    }
  }

  lemma PeriodRefused(w: string)
    ensures (forall p: nat :: !PeriodWord(w, p)) ==>
              ParsePeriod(w) == Err(BadNumber(if Overflows(0, w, 0xFFFF_FFFF_FFFF_FFFF) then Range else Syntax))
  {
    ParseDigitsExact(0, w, MAX_UINT64);
    if AllDigits(w) && w != "" && Value(0, w) < TWO_64 {
      assert PeriodWord(w, Value(0, w));
    } else {
      var e := ParseUint(w, MAX_UINT64).error;
      assert e.Syntax? || e.Range?;
      assert e == Range <==> Overflows(0, w, 0xFFFF_FFFF_FFFF_FFFF);
    }
  }

  /** Why a text of one or two words is refused: the quota is looked at first, then the period. */
  lemma RefusalExact(c: string, a: string, b: string)
    requires TwoWords(c, a, b) || (Free(c, ' ') && a == c)
    ensures (forall q :: !QuotaWord(a, q)) ==>
              ExtractQuotaAndPeriod(c) == Err(BadNumber(if QuotaTooFar(a) then Range else Syntax))
    ensures (exists q :: QuotaWord(a, q)) && TwoWords(c, a, b) && (forall p: nat :: !PeriodWord(b, p)) ==>
              ExtractQuotaAndPeriod(c)
              == Err(BadNumber(if Overflows(0, b, 0xFFFF_FFFF_FFFF_FFFF) then Range else Syntax))
  {
    WordsOf(c);
    hide ParseQuota, ParsePeriod, QuotaWord, PeriodWord, TwoWords, QuotaTooFar, Overflows;
    QuotaRefused(a);
    PeriodRefused(b);
  }

  /** What is printed: the two values or their defaults, with one space between them. */
  lemma PrintedText(quota: Option<Int64>, period: Option<Uint64>)
    ensures quota == None && period == None ==> NewCPUMax(quota, period) == "max 100000"
    ensures quota == None && period.Some? ==> NewCPUMax(quota, period) == "max " + FormatUint(period.value)
    ensures quota.Some? && period == None ==> NewCPUMax(quota, period) == FormatInt(quota.value) + " 100000"
    ensures quota.Some? && period.Some? ==>
              NewCPUMax(quota, period) == FormatInt(quota.value) + " " + FormatUint(period.value)
  {
    var max := if quota.Some? then FormatInt(quota.value) else "max";
    var duration := if period.Some? then FormatUint(period.value) else "100000";
    hide FormatInt, FormatUint;
    assert [max, duration][1..] == [duration] && Join([duration], ' ') == duration;
    assert NewCPUMax(quota, period) == max + [' '] + duration;
    assert "max" + [' '] == "max " && [' '] + "100000" == " 100000" && "max" + " 100000" == "max 100000";
    assert max + [' '] + duration == max + ([' '] + duration);
  }

  // ----- CPUQuotaPerSecUSec -----

  function WrapInt64(n: int): Int64 {
    var low := n % TWO_64;
    if low >= TWO_63 then low - TWO_64 else low
  }

  function WrapUint64(n: int): Uint64 {
    n % TWO_64
  }

  /** The least multiple of 10000 that is not below n. */
  function RoundUp(n: nat): nat {
    if n % 10000 == 0 then n else (n / 10000 + 1) * 10000
  }

  /** None stands for the run-time panic of dividing by a zero period. */
  function QuotaPerSec(quota: Int64, period: Uint64): Option<nat> {
    if quota <= 0 then Some(MAX_UINT64)
    else if period == 0 then None
    else
      Some(WrapUint64(RoundUp(quota * 1000000 % TWO_64 / period)))
  }

  method ComputeQuotaPerSec(quota: Int64, period: Uint64) returns (r: Option<nat>)
    ensures r == QuotaPerSec(quota, period)
  {
    var cpuQuotaPerSecUSec: Uint64 := MAX_UINT64;
    if quota > 0 {
      if period == 0 {
        return None;
      }
      var product := WrapInt64(quota * 1000000);
      ghost var q := Quotient(WrapUint64(product), period);
      cpuQuotaPerSecUSec := WrapUint64(product) / period;
      assert WrapUint64(product) == quota * 1000000 % TWO_64;
      if cpuQuotaPerSecUSec % 10000 != 0 {
        cpuQuotaPerSecUSec := WrapUint64((cpuQuotaPerSecUSec / 10000 + 1) * 10000);
      }
    }
    r := Some(cpuQuotaPerSecUSec);
  }

  lemma TimesMonotone(p: nat, x: nat, y: nat)
    ensures x <= y ==> p * x <= p * y
    ensures p * (x + 1) == p * x + p
    ensures p >= 1 ==> x <= p * x
  {
  }

  /** A quotient, by its defining property. */
  lemma Quotient(a: nat, p: nat) returns (q: nat)
    requires p > 0
    ensures q == a / p && p * q <= a < p * q + p && q <= a
  {
    q := a / p;
    assert a == p * q + a % p;
    TimesMonotone(p, q, q);
  }

  /** The defining property determines the quotient. */
  lemma {:induction false} QuotientIs(a: nat, p: nat, q: nat)
    requires p > 0 && p * q <= a < p * q + p
    ensures a / p == q
  {
    var q' := Quotient(a, p);
    TimesMonotone(p, q + 1, q');
    TimesMonotone(p, q' + 1, q);
    TimesMonotone(p, q, q');
    TimesMonotone(p, q', q);
  }

  lemma {:induction false} QuotientGrows(a: nat, b: nat, p: nat)
    requires p > 0 && a <= b
    ensures a / p <= b / p
  {
    var qa := Quotient(a, p);
    var qb := Quotient(b, p);
    TimesMonotone(p, qb + 1, qa);
    TimesMonotone(p, qb, qb);
  }

  lemma RoundUpIsLeast(n: nat)
    ensures RoundUp(n) % 10000 == 0 && n <= RoundUp(n) < n + 10000
    ensures forall m: nat :: m % 10000 == 0 && n <= m ==> RoundUp(n) <= m
  {
  }

  /** A product with 10^6 is a multiple of 10000. */
  lemma MillionIsRound(n: nat)
    ensures n * 1000000 % 10000 == 0
  {
    assert n * 1000000 == (n * 100) * 10000;
  }

  lemma QuotientStaysSmall(product: nat, p: nat, q: nat)
    requires p > 0 && p * q <= product < p * q + p && product < TWO_64 && product % 10000 == 0
    ensures RoundUp(q) < TWO_64
  {
    if p == 1 {
      assert q == product;
    } else {
      TimesMonotone(q, 2, p);
      assert q * 2 <= q * p == p * q;
    }
  }

  lemma Unwrapped(n: nat)
    requires n < TWO_64
    ensures n % TWO_64 == n && WrapUint64(n) == n
  {
  }

  /** What the code computes, given the quotient. */
  lemma QuotaFromQuotient(quota: Int64, period: Uint64, q: nat)
    requires quota > 0 && period > 0
    requires q == quota * 1000000 % TWO_64 / period
    ensures QuotaPerSec(quota, period) == Some(WrapUint64(RoundUp(q)))
  {
  }

  /** The rounded result cannot wrap when the product did not. */
  lemma {:induction false} RoundingFits(quota: Int64, period: Uint64) returns (q: nat)
    requires quota > 0 && period > 0 && quota * 1000000 < TWO_64
    ensures q == quota * 1000000 / period && period * q <= quota * 1000000 < period * q + period
    ensures QuotaPerSec(quota, period) == Some(RoundUp(q))
  {
    var product: nat := quota * 1000000;
    q := Quotient(product, period);
    Unwrapped(product);
    QuotaFromQuotient(quota, period, q);
    MillionIsRound(quota);
    QuotientStaysSmall(product, period, q);
    Unwrapped(RoundUp(q));
  }

  /**
    * What systemd is given for any positive quota and period: of the product, what is left modulo 2^64 is divided, and
    * the floor x of that ratio is rounded up to a multiple of 10000, which again wraps when it does not fit.
    */
  lemma {:induction false} QuotaExact(quota: Int64, period: Uint64) returns (k: nat, left: nat, x: nat, m: nat)
    requires quota > 0 && period > 0
    ensures quota * 1000000 == k * 0x1_0000_0000_0000_0000 + left && left < 0x1_0000_0000_0000_0000
    ensures period * x <= left < period * x + period
    ensures m % 10000 == 0 && x <= m < x + 10000
    ensures QuotaPerSec(quota, period)
         == Some(if m < 0x1_0000_0000_0000_0000 then m else m - 0x1_0000_0000_0000_0000)
  {
    var product: nat := quota * 1000000;
    k, left := product / TWO_64, product % TWO_64;
    x := Quotient(left, period);
    QuotaFromQuotient(quota, period, x);
    m := RoundUp(x);
    RoundUpIsLeast(x);
    TimesMonotone(x, 1, period);
    assert x * 1 <= x * period == period * x;
    WrapOnce(m);
  }

  lemma WrapOnce(m: nat)
    requires m < 2 * TWO_64
    ensures WrapUint64(m) == if m < TWO_64 then m else m - TWO_64
  {
  }

  /**
    * The rounding bound: while quota * 10^6 fits 64 bits, the result is the least multiple of 10000 that is not below
    * the floor of the exact ratio x, and lies strictly between x - 1 and x + 10000.
    */
  lemma {:induction false} QuotaBounds(quota: Int64, period: Uint64)
    requires quota > 0 && period > 0 && quota * 1000000 < TWO_64
    ensures QuotaPerSec(quota, period).Some?
    ensures var v := QuotaPerSec(quota, period).value;
            && v % 10000 == 0 && v >= quota * 1000000 / period
            && (forall m: nat :: m % 10000 == 0 && quota * 1000000 / period <= m ==> v <= m)
            && (v + 1) * period > quota * 1000000
            && v * period < quota * 1000000 + 10000 * period
  {
    var x := RoundingFits(quota, period);
    RoundUpIsLeast(x);
    var v := RoundUp(x);
    TimesMonotone(period, x + 1, v + 1);
    TimesMonotone(period, x, x);
    TimesMonotone(period, v + 1, x + 10000);
    TimesMonotone(period, v, v);
    assert period * (x + 10000) == period * x + 10000 * period;
    assert (v + 1) * period == period * (v + 1) && v * period == period * v;
  }

  lemma RoundUpGrows(a: nat, b: nat)
    requires a <= b
    ensures RoundUp(a) <= RoundUp(b)
  {
    RoundUpIsLeast(a);
    RoundUpIsLeast(b);
  }

  lemma {:induction false} QuotientShrinks(a: nat, p1: nat, p2: nat)
    requires 0 < p1 <= p2
    ensures a / p2 <= a / p1
  {
    var q1 := Quotient(a, p1);
    var q2 := Quotient(a, p2);
    TimesMonotone(q2, p1, p2);
    assert q2 * p1 == p1 * q2 && q2 * p2 == p2 * q2;
    TimesMonotone(p1, q1 + 1, q2);
    TimesMonotone(p1, q1, q1);
  }

  /** A larger quota never gives less, and a longer period never gives more. */
  lemma {:induction false} QuotaMonotone(q1: Int64, q2: Int64, p1: Uint64, p2: Uint64)
    requires 0 < q1 <= q2 && 0 < p1 <= p2 && q2 * 1000000 < TWO_64
    ensures QuotaPerSec(q1, p2).Some? && QuotaPerSec(q2, p1).Some?
    ensures QuotaPerSec(q1, p2).value <= QuotaPerSec(q2, p1).value
  {
    var x1 := RoundingFits(q1, p2);
    var x2 := RoundingFits(q2, p1);
    var a1: nat, a2: nat := q1 * 1000000, q2 * 1000000;
    QuotientGrows(a1, a2, p2);
    QuotientShrinks(a2, p1, p2);
    RoundUpGrows(x1, x2);
  }

  /**
    * The bound on the product is exact: for every period up to 2^64 / 10000, which covers all that the kernel accepts,
    * the result is the rounded ratio if and only if quota * 10^6 fits 64 bits.
    */
  lemma {:induction false} QuotaExactIff(quota: Int64, period: Uint64)
    requires quota > 0 && 0 < period <= TWO_64 / 10000
    ensures QuotaPerSec(quota, period) == Some(RoundUp(quota * 1000000 / period)) <==> quota * 1000000 < TWO_64
  {
    if quota * 1000000 < TWO_64 {
      var x := RoundingFits(quota, period);
    } else {
      WrappedIsTooSmall(quota, period);
    }
  }

  lemma {:induction false} WrappedIsTooSmall(quota: Int64, period: Uint64)
    requires quota > 0 && 0 < period <= TWO_64 / 10000 && quota * 1000000 >= TWO_64
    ensures QuotaPerSec(quota, period) != Some(RoundUp(quota * 1000000 / period))
  {
    var a: nat := quota * 1000000;
    var r: nat := a % TWO_64;
    TenThousandMore(r, period);
    QuotientGrows(r + 10000 * period, a, period);
    var q := Quotient(r, period);
    var x := Quotient(a, period);
    QuotaFromQuotient(quota, period, q);
    WrappedBelow(q, x);
  }

  lemma WrappedBelow(q: nat, x: nat)
    requires x >= q + 10000
    ensures WrapUint64(RoundUp(q)) < RoundUp(x)
  {
    RoundUpIsLeast(q);
    RoundUpIsLeast(x);
  }

  lemma {:induction false} TenThousandMore(r: nat, p: nat)
    requires p > 0
    ensures (r + 10000 * p) / p == r / p + 10000
  {
    var q := Quotient(r, p);
    assert p * (q + 10000) == p * q + 10000 * p;
    QuotientIs(r + 10000 * p, p, q + 10000);
  }

  /**
    * Exactly when systemd is given infinity: for a quota of zero or less. A quota of "max" is read as a positive
    * number, so no text that says "max" ever yields infinity, whatever the period.
    */
  lemma InfinityIff(quota: Int64, period: Uint64)
    ensures QuotaPerSec(quota, period) == Some(MAX_UINT64) <==> quota <= 0
    ensures QuotaPerSec(quota, period) == None <==> quota > 0 && period == 0
  {
    if quota > 0 && period > 0 {
      RoundUpIsLeast(quota * 1000000 % TWO_64 / period);
      WrapKeepsRound(RoundUp(quota * 1000000 % TWO_64 / period));
    }
  }

  /** 2^64 - 1 is not what is left of any multiple of 10000. */
  lemma WrapKeepsRound(n: nat)
    requires n % 10000 == 0
    ensures WrapUint64(n) != MAX_UINT64
  {
    var q := n / TWO_64;
    assert n == q * TWO_64 + n % TWO_64;
  }

  /** What is left of the greatest quota times 10^6. */
  lemma MaxProductWraps()
    ensures MAX_INT64 * 1000000 % TWO_64 == TWO_64 - 1000000
  {
  }

  /** The rounded share of what is left. */
  function MaxShare(period: Uint64): nat
    requires period > 0
  {
    var left: nat := TWO_64 - 1000000;
    RoundUp(left / period)
  }

  lemma MaxRounded(period: Uint64)
    requires period > 0
    ensures QuotaPerSec(MAX_INT64, period) == Some(MaxShare(period))
  {
    hide RoundUp;
    var left: nat := TWO_64 - 1000000;
    MaxProductWraps();
    var q := Quotient(left, period);
    QuotaFromQuotient(MAX_INT64, period, q);
    TimesMonotone(q, 1, period);
    assert q * 1 <= q * period == period * q <= left;
    RoundUpIsLeast(q);
    Unwrapped(RoundUp(q));
  }

  lemma DefaultMax()
    ensures MaxShare(DEFAULT_PERIOD) == 184467440740000
  {
  }

  /**
    * What a quota of "max" becomes, with any period that is accepted: a zero period panics, and any other gives the
    * share of the wrapped product, a finite number instead of infinity. For the default period it is 184467440740000.
    */
  lemma MaxBecomesFinite(c: string) returns (period: Uint64)
    requires ExtractQuotaAndPeriod(c).Ok? && ToLower(Split(c, ' ')[0]) == "max"
    ensures ExtractQuotaAndPeriod(c) == Ok((MAX_INT64 as int, period as nat))
    ensures QuotaPerSec(MAX_INT64, period) != Some(MAX_UINT64)
    ensures period == 0 ==> QuotaPerSec(MAX_INT64, period) == None
    ensures period > 0 ==> QuotaPerSec(MAX_INT64, period) == Some(MaxShare(period))
    ensures period == DEFAULT_PERIOD ==> QuotaPerSec(MAX_INT64, period) == Some(184467440740000)
  {
    AcceptedValuesRoundTrip(c);
    hide MaxShare;
    period := ExtractQuotaAndPeriod(c).value.1;
    InfinityIff(MAX_INT64, period);
    if period > 0 {
      MaxRounded(period);
    }
    DefaultMax();
  }
}
