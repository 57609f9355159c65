/**
 * The three parsers of Go's `strconv` package that the binder calls, in
 * base 10: `ParseUint`, `ParseInt` and `ParseBool`.  They are part of Go's
 * standard library, not of the repository; the model follows the library's
 * semantics, including the order in which its digit loop reports a syntax
 * error or a range error.  Integers are unbounded here, so the 64-bit
 * overflow checks of the library become comparisons with `2^bitSize - 1`.
 */
module Strconv {
  import opened Wrappers

  /** The width in bits of Go's `int` and `uint` on the target platform. */
  type IntSize = n: nat | n == 32 || n == 64 witness 64

  /** The `Err` field of a `*strconv.NumError`. */
  datatype Cause = ErrSyntax | ErrRange | ErrBitSize(bitSize: nat)

  /** A `*strconv.NumError`: the function that failed, its input, and why. */
  datatype NumError = NumError(func: string, num: string, cause: Cause)

  predicate IsDigit(c: char) {
    '0' <= c <= '9'
  }

  predicate AllDigits(s: string) {
    forall i :: 0 <= i < |s| ==> IsDigit(s[i])
  }

  function DigitValue(c: char): (d: nat)
    requires IsDigit(c)
    ensures d < 10
  {
    c as nat - '0' as nat
  }

  function DigitChar(d: nat): (c: char)
    requires d < 10
    ensures IsDigit(c) && DigitValue(c) == d
  {
    ('0' as nat + d) as char
  }

  /** The number a string of decimal digits denotes, read most significant first. */
  function Decimal(s: string): nat
    requires AllDigits(s)
  {
    if s == [] then 0 else Decimal(s[..|s| - 1]) * 10 + DigitValue(s[|s| - 1])
  }

  function Pow2(n: nat): (r: nat)
    ensures r >= 1
  {
    if n == 0 then 1 else 2 * Pow2(n - 1)
  }

  /** A `bitSize` of 0 stands for the platform's `int` width. */
  function EffectiveBitSize(bitSize: nat, intSize: IntSize): (b: nat)
    ensures b >= 1
    ensures bitSize == 0 ==> b == intSize
    ensures bitSize != 0 ==> b == bitSize
  {
    if bitSize == 0 then intSize else bitSize
  }

  /**
   * The digit loop of `ParseUint` for base 10, from position `i` with the
   * value `n` accumulated so far: a non-digit is a syntax error, and a digit
   * that takes the value above `maxVal` is a range error, reported at once
   * even if a non-digit follows.
   */
  function ScanDigits(s: string, i: nat, n: nat, maxVal: nat): (r: Result<nat, Cause>)
    requires i <= |s|
    ensures r.Success? && n <= maxVal ==> n <= r.value <= maxVal
    decreases |s| - i
  {
    if i == |s| then Success(n)
    else if !IsDigit(s[i]) then Failure(ErrSyntax)
    else if n * 10 + DigitValue(s[i]) > maxVal then Failure(ErrRange)
    else ScanDigits(s, i + 1, n * 10 + DigitValue(s[i]), maxVal)
  }

  /** `strconv.ParseUint(s, 10, bitSize)`: a result fits in the bit size, and an error names the function and the input. */
  function ParseUint(s: string, bitSize: nat, intSize: IntSize): (r: Result<nat, NumError>)
    ensures r.Success? ==> bitSize <= 64 && r.value < Pow2(EffectiveBitSize(bitSize, intSize))
    ensures r.Failure? ==> r.error.func == "ParseUint" && r.error.num == s
  {
    if s == "" then Failure(NumError("ParseUint", s, ErrSyntax))
    else if bitSize > 64 then Failure(NumError("ParseUint", s, ErrBitSize(bitSize)))
    else
      match ScanDigits(s, 0, 0, Pow2(EffectiveBitSize(bitSize, intSize)) - 1)
      case Success(n) => Success(n)
      case Failure(c) => Failure(NumError("ParseUint", s, c))
  }

  /** The input of `ParseInt` with one leading `+` or `-` removed. */
  function Unsigned(s: string): string
  {
    if s != "" && (s[0] == '+' || s[0] == '-') then s[1..] else s
  }

  /**
   * `strconv.ParseInt(s, 10, bitSize)`: an optional sign, then the digits
   * parsed by `ParseUint` with the same bit size; a syntax or bit-size error
   * of that call is reported under this function's name and input, and the
   * result must lie in [-2^(b-1), 2^(b-1) - 1].
   */
  function ParseInt(s: string, bitSize: nat, intSize: IntSize): (r: Result<int, NumError>)
    ensures r.Success? ==> bitSize <= 64
    ensures r.Failure? ==> r.error.func == "ParseInt" && r.error.num == s
  {
    if s == "" then Failure(NumError("ParseInt", s, ErrSyntax))
    else
      var neg := s[0] == '-';
      var u := ParseUint(Unsigned(s), bitSize, intSize);
      if u.Failure? && u.error.cause != ErrRange then Failure(NumError("ParseInt", s, u.error.cause))
      else
        var size := EffectiveBitSize(bitSize, intSize);
        var un := if u.Success? then u.value else Pow2(size) - 1;
        var cutoff := Pow2(size - 1);
        if !neg && un >= cutoff then Failure(NumError("ParseInt", s, ErrRange))
        else if neg && un > cutoff then Failure(NumError("ParseInt", s, ErrRange))
        else Success(if neg then -un else un)
  }

  const TrueLiterals: set<string> := {"1", "t", "T", "TRUE", "true", "True"}
  const FalseLiterals: set<string> := {"0", "f", "F", "FALSE", "false", "False"}

  /** `strconv.ParseBool`: exactly twelve literals are accepted. */
  function ParseBool(s: string): (r: Result<bool, NumError>)
    ensures r.Success? <==> s in TrueLiterals + FalseLiterals
    ensures r.Success? ==> (r.value <==> s in TrueLiterals)
    ensures r.Failure? ==> r.error == NumError("ParseBool", s, ErrSyntax)
  {
    if s == "1" || s == "t" || s == "T" || s == "true" || s == "TRUE" || s == "True" then Success(true)
    else if s == "0" || s == "f" || s == "F" || s == "false" || s == "FALSE" || s == "False" then Success(false)
    else Failure(NumError("ParseBool", s, ErrSyntax))
  }

  /** A signed decimal literal: an optional sign followed by at least one digit. */
  predicate IsSignedDecimal(s: string) {
    Unsigned(s) != "" && AllDigits(Unsigned(s))
  }

  function SignedDecimal(s: string): int
    requires IsSignedDecimal(s)
  {
    if s[0] == '-' then -(Decimal(Unsigned(s)) as int) else Decimal(Unsigned(s))
  }

  /** Decimal rendering of a natural number, the inverse of `Decimal`. */
  function FormatUint(n: nat): (s: string)
    decreases n
  {
    if n < 10 then [DigitChar(n)] else FormatUint(n / 10) + [DigitChar(n % 10)]
  }

  /** Decimal rendering of an integer, with a `-` for negative numbers. */
  function FormatInt(n: int): string
  {
    if n < 0 then "-" + FormatUint(-n) else FormatUint(n)
  }

  // ---------------------------------------------------------------------
  // Properties of the parsers

  /** A digit string's value is at least the value of each of its prefixes. */
  lemma {:induction false} DecimalPrefix(s: string, k: nat)
    requires AllDigits(s) && k <= |s|
    ensures AllDigits(s[..k]) && Decimal(s[..k]) <= Decimal(s)
  {
    if k < |s| {
      var t := s[..|s| - 1];
      assert t[..k] == s[..k];
      DecimalPrefix(t, k);
    } else {
      assert s[..k] == s;
    }
  }

  /** The digit loop accepts exactly the digit strings whose value fits. */
  lemma {:induction false} ScanDigitsSpec(s: string, i: nat, n: nat, maxVal: nat)
    requires i <= |s| && AllDigits(s[..i]) && n == Decimal(s[..i]) && n <= maxVal
    ensures var r := ScanDigits(s, i, n, maxVal);
      && (r.Success? <==> AllDigits(s) && Decimal(s) <= maxVal)
      && (r.Success? ==> r.value == Decimal(s))
      && (r.Failure? && AllDigits(s) ==> r.error == ErrRange)
    decreases |s| - i
  {
    if i == |s| {
      assert s[..i] == s;
    } else if !IsDigit(s[i]) {
      assert !AllDigits(s);
    } else {
      var n1 := n * 10 + DigitValue(s[i]);
      var p := s[..i + 1];
      assert p[..|p| - 1] == s[..i];
      assert AllDigits(p);
      assert Decimal(p) == n1;
      if n1 > maxVal {
        if AllDigits(s) {
          DecimalPrefix(s, i + 1);
        }
      } else {
        ScanDigitsSpec(s, i + 1, n1, maxVal);
      }
    }
  }

  /**
   * `ParseUint` succeeds exactly on non-empty digit strings whose value is
   * below 2^b, and then returns that value; a digit string that does not
   * fit is a range error; every error names `ParseUint` and the input.
   */
  lemma ParseUintSpec(s: string, bitSize: nat, intSize: IntSize)
    requires bitSize <= 64
    ensures var r := ParseUint(s, bitSize, intSize);
      && (r.Success? <==> s != "" && AllDigits(s) && Decimal(s) < Pow2(EffectiveBitSize(bitSize, intSize)))
      && (r.Success? ==> r.value == Decimal(s))
      && (r.Failure? ==> r.error.func == "ParseUint" && r.error.num == s)
      && (r.Failure? && s != "" && AllDigits(s) ==> r.error.cause == ErrRange)
  {
    if s != "" {
      assert s[..0] == "";
      ScanDigitsSpec(s, 0, 0, Pow2(EffectiveBitSize(bitSize, intSize)) - 1);
    }
  }

  /**
   * `ParseInt` succeeds exactly on signed decimal literals whose value lies
   * in [-2^(b-1), 2^(b-1) - 1], and then returns that value; a well-formed
   * literal outside that range is a range error; every error names
   * `ParseInt` and the whole input.  (A bit size of 1, which the binder
   * never passes, is excluded: there the library returns -1 for any
   * negative literal.)
   */
  lemma ParseIntSpec(s: string, bitSize: nat, intSize: IntSize)
    requires bitSize == 0 || 2 <= bitSize <= 64
    ensures var r := ParseInt(s, bitSize, intSize);
      var b := EffectiveBitSize(bitSize, intSize);
      && (r.Success? <==> IsSignedDecimal(s) && -(Pow2(b - 1) as int) <= SignedDecimal(s) < Pow2(b - 1))
      && (r.Success? ==> r.value == SignedDecimal(s))
      && (r.Failure? ==> r.error.func == "ParseInt" && r.error.num == s)
      && (r.Failure? && IsSignedDecimal(s) ==> r.error.cause == ErrRange)
  {
    if s != "" {
      if IsSignedDecimal(s) {
        ParseIntDecimal(s, bitSize, intSize);
      } else {
        ParseIntNotDecimal(s, bitSize, intSize);
      }
    }
  }

  /** A signed decimal literal parses exactly when it is in range; otherwise it is a range error. */
  lemma ParseIntDecimal(s: string, bitSize: nat, intSize: IntSize)
    requires bitSize == 0 || 2 <= bitSize <= 64
    requires IsSignedDecimal(s)
    ensures var r := ParseInt(s, bitSize, intSize);
      var half := Pow2(EffectiveBitSize(bitSize, intSize) - 1);
      && (r.Success? <==> -(half as int) <= SignedDecimal(s) < half)
      && (r.Success? ==> r.value == SignedDecimal(s))
      && (r.Failure? ==> r.error.cause == ErrRange)
  {
    var b := EffectiveBitSize(bitSize, intSize);
    assert Pow2(b) == 2 * Pow2(b - 1);
    var t := Unsigned(s);
    ParseUintDigits(t, bitSize, intSize);
    var u := ParseUint(t, bitSize, intSize);
    if u.Success? {
      ParseIntCutoff(s, bitSize, intSize, u.value);
    } else {
      ParseIntRange(s, bitSize, intSize);
    }
  }

  /** What `ParseInt` makes of a successful `ParseUint` call on the unsigned part: the signed cutoff. */
  lemma ParseIntCutoff(s: string, bitSize: nat, intSize: IntSize, d: nat)
    requires s != "" && ParseUint(Unsigned(s), bitSize, intSize) == Success(d)
    ensures var half := Pow2(EffectiveBitSize(bitSize, intSize) - 1);
      var r := ParseInt(s, bitSize, intSize);
      && (s[0] == '-' ==> r == if d <= half then Success(-(d as int)) else Failure(NumError("ParseInt", s, ErrRange)))
      && (s[0] != '-' ==> r == if d < half then Success(d as int) else Failure(NumError("ParseInt", s, ErrRange)))
  {
  }

  /** Whatever `ParseInt` returns lies in the signed range of the bit size. */
  lemma ParseIntBound(s: string, bitSize: nat, intSize: IntSize)
    ensures var r := ParseInt(s, bitSize, intSize);
      var half := Pow2(EffectiveBitSize(bitSize, intSize) - 1);
      r.Success? ==> -(half as int) <= r.value < half
  {
  }

  /** A range error of the `ParseUint` call is a range error of `ParseInt` (for bit sizes other than 1). */
  lemma ParseIntRange(s: string, bitSize: nat, intSize: IntSize)
    requires bitSize == 0 || 2 <= bitSize <= 64
    requires s != "" && ParseUint(Unsigned(s), bitSize, intSize) == Failure(NumError("ParseUint", Unsigned(s), ErrRange))
    ensures ParseInt(s, bitSize, intSize) == Failure(NumError("ParseInt", s, ErrRange))
  {
    var b := EffectiveBitSize(bitSize, intSize);
    var half := Pow2(b - 1);
    assert Pow2(b) == 2 * half;
    assert half >= 2 by {
      assert half == 2 * Pow2(b - 2);
    }
  }

  /** On a digit string, `ParseUint` fails only by a range error. */
  lemma ParseUintDigits(t: string, bitSize: nat, intSize: IntSize)
    requires bitSize <= 64
    requires t != "" && AllDigits(t)
    ensures var u := ParseUint(t, bitSize, intSize);
      && (u.Success? <==> Decimal(t) < Pow2(EffectiveBitSize(bitSize, intSize)))
      && (u.Success? ==> u.value == Decimal(t))
      && (u.Failure? ==> u.error.cause == ErrRange)
  {
    ParseUintSpec(t, bitSize, intSize);
  }

  /** Anything other than a signed decimal literal fails, whatever error the digit loop reports. */
  lemma ParseIntNotDecimal(s: string, bitSize: nat, intSize: IntSize)
    requires bitSize == 0 || 2 <= bitSize <= 64
    requires s != "" && !IsSignedDecimal(s)
    ensures ParseInt(s, bitSize, intSize).Failure?
  {
    ParseUintNotDigits(Unsigned(s), bitSize, intSize);
    if ParseUint(Unsigned(s), bitSize, intSize).error.cause == ErrRange {
      ParseIntRange(s, bitSize, intSize);
    }
  }

  /** `ParseUint` fails on the empty string and on anything that is not all digits. */
  lemma ParseUintNotDigits(t: string, bitSize: nat, intSize: IntSize)
    requires bitSize <= 64
    requires t == "" || !AllDigits(t)
    ensures ParseUint(t, bitSize, intSize).Failure?
  {
    ParseUintSpec(t, bitSize, intSize);
  }

  /** `FormatUint` yields a non-empty digit string denoting its argument. */
  lemma {:induction false} FormatUintDecimal(n: nat)
    ensures var s := FormatUint(n); s != "" && AllDigits(s) && Decimal(s) == n
    decreases n
  {
    if n >= 10 {
      FormatUintDecimal(n / 10);
      var s := FormatUint(n);
      assert s[..|s| - 1] == FormatUint(n / 10);
    }
  }

  /** Round trip: a rendered number parses back to itself iff it fits the width. */
  lemma ParseUintFormat(n: nat, bitSize: nat, intSize: IntSize)
    requires bitSize <= 64
    ensures ParseUint(FormatUint(n), bitSize, intSize).Success? <==> n < Pow2(EffectiveBitSize(bitSize, intSize))
    ensures ParseUint(FormatUint(n), bitSize, intSize).Success? ==> ParseUint(FormatUint(n), bitSize, intSize).value == n
  {
    FormatUintDecimal(n);
    ParseUintSpec(FormatUint(n), bitSize, intSize);
  }

  /** Round trip: a rendered integer parses back to itself iff it is in the signed range. */
  lemma ParseIntFormat(n: int, bitSize: nat, intSize: IntSize)
    requires bitSize == 0 || 2 <= bitSize <= 64
    ensures var b := EffectiveBitSize(bitSize, intSize);
      ParseInt(FormatInt(n), bitSize, intSize) == if -(Pow2(b - 1) as int) <= n < Pow2(b - 1) then Success(n)
        else Failure(NumError("ParseInt", FormatInt(n), ErrRange))
  {
    var s := FormatInt(n);
    var m := if n < 0 then -n else n;
    FormatUintDecimal(m);
    assert Unsigned(s) == FormatUint(m);
    assert IsSignedDecimal(s) && SignedDecimal(s) == n;
    ParseIntSpec(s, bitSize, intSize);
  }
}
