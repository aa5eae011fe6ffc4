/** Decimal integers as the receiver reads and prints them: `strconv.Atoi`
    parses an operator's input line, and `%d` prints a registry index in the
    log line the operator reads it from. */
module Decimal {
  import opened GoInt

  /** The two kinds of `*strconv.NumError`. */
  datatype NumError = ErrSyntax | ErrRange

  datatype Result<T> = Ok(value: T) | Err(error: NumError)

  predicate IsDigit(c: char) {
    '0' <= c <= '9'
  }

  function DigitValue(c: char): (d: nat)
    requires IsDigit(c)
    ensures d <= 9
  {
    (c as int) - ('0' as int)
  }

  function DigitChar(d: nat): (c: char)
    requires d <= 9
    ensures IsDigit(c) && DigitValue(c) == d
  {
    (('0' as int) + d) as char
  }

  predicate AllDigits(s: string) {
    forall i :: 0 <= i < |s| ==> IsDigit(s[i])
  }

  /** The value of a digit string, read from its last digit: the reference
      meaning against which the scanner below is proved. */
  function Value(s: string): nat
    requires AllDigits(s)
  {
    if s == [] then 0 else Value(s[..|s| - 1]) * 10 + DigitValue(s[|s| - 1])
  }

  /** The digits after an optional leading sign. */
  function Unsigned(s: string): string {
    if |s| > 0 && (s[0] == '-' || s[0] == '+') then s[1..] else s
  }

  /** What `Atoi` is meant to accept: an optional sign and at least one digit. */
  predicate IsDecimal(s: string) {
    |Unsigned(s)| > 0 && AllDigits(Unsigned(s))
  }

  function DecimalValue(s: string): int
    requires IsDecimal(s)
  {
    var v: int := Value(Unsigned(s));
    if s[0] == '-' then -v else v
  }

  /** The digit loop of `strconv.ParseUint` in base 10 with 64 bits: it reads
      left to right and the first failure wins, a non-digit being a syntax
      error and an accumulated value past `MaxUint64` a range error. */
  function ScanDigits(s: string, acc: nat): (r: Result<nat>)
    requires acc <= MaxUint64
    ensures r.Ok? ==> acc <= r.value <= MaxUint64
    decreases |s|
  {
    if s == [] then Ok(acc)
    else if !IsDigit(s[0]) then Err(ErrSyntax)
    else
      var next := acc * 10 + DigitValue(s[0]);
      if next > MaxUint64 then Err(ErrRange) else ScanDigits(s[1..], next)
  }

  /** `strconv.Atoi` on a 64-bit platform: the empty string and a lone sign
      are syntax errors, the digits are scanned as by `ParseUint`, and a
      magnitude outside `int64` is a range error. */
  function Atoi(s: string): (r: Result<int>)
    ensures r.Ok? ==> IsInt64(r.value)
  {
    if s == [] then Err(ErrSyntax)
    else
      var neg := s[0] == '-';
      var digits := Unsigned(s);
      if digits == [] then Err(ErrSyntax)
      else match ScanDigits(digits, 0)
        case Err(e) => Err(e)
        case Ok(u) =>
          if !neg && u > MaxInt64 then Err(ErrRange)
          else if neg && u > -MinInt64 then Err(ErrRange)
          else Ok(if neg then -(u as int) else u)
  }

  /** The digits of a natural number, as `%d` prints them. */
  function DigitsOf(n: nat): (d: string)
    ensures |d| > 0 && AllDigits(d)
    decreases n
  {
    if n < 10 then [DigitChar(n)] else DigitsOf(n / 10) + [DigitChar(n % 10)]
  }

  /** A Go `int` printed with `%d`. */
  function FormatInt(n: int): (r: string)
    ensures IsDecimal(r) && (r[0] == '-' <==> n < 0)
  {
    if n < 0 then "-" + DigitsOf(-n) else DigitsOf(n)
  }

  lemma {:induction false} DigitsOfValue(n: nat)
    ensures Value(DigitsOf(n)) == n
    decreases n
  {
    var d := DigitsOf(n);
    if n >= 10 {
      DigitsOfValue(n / 10);
      assert d[..|d| - 1] == DigitsOf(n / 10);
    }
  }

  /** Appending digits never makes a value smaller. */
  lemma {:induction false} ValueMonotone(p: string, q: string)
    requires AllDigits(p) && AllDigits(q)
    ensures AllDigits(p + q) && Value(p) <= Value(p + q)
    decreases |q|
  {
    if q == [] {
      assert p + q == p;
    } else {
      var q' := q[..|q| - 1];
      ValueMonotone(p, q');
      assert (p + q)[..|p + q| - 1] == p + q';
    }
  }

  /** Scanning the digits `d` after the already-read prefix `p` yields the
      value of `p + d`, or a range error exactly when that is past `MaxUint64`. */
  lemma {:induction false} ScanDigitsValue(p: string, d: string)
    requires AllDigits(p) && AllDigits(d) && Value(p) <= MaxUint64
    ensures AllDigits(p + d)
    ensures ScanDigits(d, Value(p)) ==
              if Value(p + d) <= MaxUint64 then Ok(Value(p + d)) else Err(ErrRange)
    decreases |d|
  {
    if d == [] {
      assert p + d == p;
    } else {
      var p' := p + [d[0]];
      assert p'[..|p'| - 1] == p;
      assert p' + d[1..] == p + d;
      ValueMonotone(p', d[1..]);
      if Value(p') <= MaxUint64 {
        ScanDigitsValue(p', d[1..]);
      }
    }
  }

  /** A non-digit anywhere makes the scan fail. */
  lemma {:induction false} ScanDigitsRejects(s: string, acc: nat)
    requires acc <= MaxUint64 && !AllDigits(s)
    ensures ScanDigits(s, acc).Err?
    decreases |s|
  {
    if IsDigit(s[0]) {
      var next := acc * 10 + DigitValue(s[0]);
      if next <= MaxUint64 {
        assert !AllDigits(s[1..]) by {
          var i :| 0 <= i < |s| && !IsDigit(s[i]);
          assert i > 0 && s[1..][i - 1] == s[i];
        }
        ScanDigitsRejects(s[1..], next);
      }
    }
  }

  /** `Atoi` against its reference meaning: it succeeds exactly on a signed
      decimal whose value fits an `int64`, returns that value, and reports a
      range error for a well-formed decimal that does not fit. */
  lemma AtoiMeaning(s: string)
    ensures Atoi(s).Ok? <==> IsDecimal(s) && IsInt64(DecimalValue(s))
    ensures Atoi(s).Ok? ==> Atoi(s).value == DecimalValue(s)
    ensures IsDecimal(s) && !IsInt64(DecimalValue(s)) ==> Atoi(s) == Err(ErrRange)
  {
    var digits := Unsigned(s);
    if s == [] || digits == [] {
      return;
    }
    if !AllDigits(digits) {
      ScanDigitsRejects(digits, 0);
      return;
    }
    assert Value([]) == 0 && [] + digits == digits;
    ScanDigitsValue([], digits);
    var v := Value(digits);
    assert ScanDigits(digits, 0) == if v <= MaxUint64 then Ok(v) else Err(ErrRange);
    assert DecimalValue(s) == if s[0] == '-' then -v else v;
  }

  /** A number printed with `%d` parses back to itself. */
  lemma AtoiFormatInt(n: int)
    requires IsInt64(n)
    ensures Atoi(FormatInt(n)) == Ok(n)
  {
    var m := if n < 0 then -n else n;
    DigitsOfValue(m);
    var s := FormatInt(n);
    assert Unsigned(s) == DigitsOf(m);
    AtoiMeaning(s);
  }
}
