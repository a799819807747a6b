/**
 * Decimal text: Go's `strconv.ParseInt(s, 10, 64)` as the timestamp parser calls it, and
 * the zero-padded decimal rendering Go's time formatting uses for years, days and clocks.
 */
module Strconv {
  import opened Common

  const MaxUint64: int := 0xFFFF_FFFF_FFFF_FFFF

  predicate IsDigit(c: char) { '0' <= c <= '9' }

  predicate AllDigits(s: string) {
    forall i :: 0 <= i < |s| ==> IsDigit(s[i])
  }

  function DigitValue(c: char): nat
    requires IsDigit(c)
  {
    c as int - '0' as int
  }

  function DigitChar(d: nat): (c: char)
    requires d < 10
    ensures IsDigit(c) && DigitValue(c) == d
  {
    ('0' as int + d) as char
  }

  function Pow10(n: nat): (p: nat)
    ensures p >= 1
  {
    if n == 0 then 1 else 10 * Pow10(n - 1)
  }

  /** The value of a string of decimal digits, most significant digit first. */
  function DigitsValue(s: string): nat
    requires AllDigits(s)
  {
    if s == [] then 0 else 10 * DigitsValue(s[..|s| - 1]) + DigitValue(s[|s| - 1])
  }

  lemma DigitsValueSnoc(s: string, c: char)
    requires AllDigits(s) && IsDigit(c)
    ensures AllDigits(s + [c]) && DigitsValue(s + [c]) == 10 * DigitsValue(s) + DigitValue(c)
  {
    assert (s + [c])[..|s|] == s;
  }

  /** The low `w` decimal digits of `n`, zero-padded on the left to exactly `w` characters. */
  function FixedDigits(n: nat, w: nat): (s: string)
    ensures |s| == w && AllDigits(s)
    ensures n < Pow10(w) ==> DigitsValue(s) == n
  {
    if w == 0 then []
    else
      var s := FixedDigits(n / 10, w - 1) + [DigitChar(n % 10)];
      assert s[..|s| - 1] == FixedDigits(n / 10, w - 1);
      s
  }

  /** The number of decimal digits `n` needs (at least one). */
  function DigitCount(n: nat): (k: nat)
    ensures 1 <= k && n < Pow10(k)
  {
    if n < 10 then 1 else 1 + DigitCount(n / 10)
  }

  lemma {:induction false} DigitCountAtMost(n: nat, w: nat)
    requires 1 <= w && n < Pow10(w)
    ensures DigitCount(n) <= w
  {
    if n >= 10 {
      DigitCountAtMost(n / 10, w - 1);
    }
  }

  /**
   * The decimal form of `x` that Go's time formatting writes (its `appendInt`): a '-' for a
   * negative number, then the digits of |x| padded with leading zeros to at least `width`.
   */
  function PaddedDecimal(x: int, width: nat): (s: string)
    ensures |s| >= width
  {
    var u := if x < 0 then -x else x;
    var digits := FixedDigits(u, if DigitCount(u) < width then width else DigitCount(u));
    if x < 0 then "-" + digits else digits
  }

  /** The decimal form starts with a digit or '-', ends with a digit, and is all digits when x >= 0. */
  lemma PaddedDecimalShape(x: int, width: nat)
    ensures var s := PaddedDecimal(x, width);
            |s| > 0 && (s[0] == '-' || IsDigit(s[0])) && IsDigit(s[|s| - 1])
            && (x >= 0 ==> AllDigits(s))
  {
    var u := if x < 0 then -x else x;
    var digits := FixedDigits(u, if DigitCount(u) < width then width else DigitCount(u));
    assert IsDigit(digits[0]) && IsDigit(digits[|digits| - 1]);
  }

  /** strconv.FormatInt(x, 10): the shortest decimal form, with a '-' for negatives. */
  function Decimal(x: int): string {
    PaddedDecimal(x, 1)
  }

  // ---------------------------------------------------------------------------------------
  // Parsing

  datatype NumErrorKind = ErrSyntax | ErrRange

  /** strconv.NumError: the function that failed, the text it was given, and why. */
  datatype NumError = NumError(func: string, num: string, err: NumErrorKind)

  /**
   * ParseUint's digit loop (base 10, 64 bits): it accumulates left to right and stops at the
   * first character that is not a digit (syntax) or at the first step whose value would
   * exceed 2^64 - 1 (range), whichever comes first.
   */
  function ScanDigits(s: string, acc: nat): Result<nat, NumErrorKind>
    decreases |s|
  {
    if s == [] then Ok(acc)
    else if !IsDigit(s[0]) then Err(ErrSyntax)
    else if 10 * acc + DigitValue(s[0]) > MaxUint64 then Err(ErrRange)
    else ScanDigits(s[1..], 10 * acc + DigitValue(s[0]))
  }

  /** strconv.ParseUint(s, 10, 64) as ParseInt uses it: the empty string is a syntax error. */
  function ParseUint(s: string): Result<nat, NumErrorKind> {
    if s == [] then Err(ErrSyntax) else ScanDigits(s, 0)
  }

  /** The text after an optional leading '+' or '-'. */
  function Unsigned(s: string): string {
    if |s| > 0 && (s[0] == '+' || s[0] == '-') then s[1..] else s
  }

  /**
   * strconv.ParseInt(s, 10, 64): an optional sign, then the unsigned parse; a magnitude
   * beyond 2^63 - 1 (2^63 for a negative number) is a range error.
   */
  function ParseInt(s: string): (r: Result<int64, NumError>)
    ensures r.Err? ==> r.error.func == "ParseInt" && r.error.num == s
  {
    if s == [] then Err(NumError("ParseInt", s, ErrSyntax))
    else
      var neg := s[0] == '-';
      match ParseUint(Unsigned(s))
      case Err(kind) => Err(NumError("ParseInt", s, kind))
      case Ok(un) =>
        if !neg && un > MaxInt64 then Err(NumError("ParseInt", s, ErrRange))
        else if neg && un > MaxInt64 + 1 then Err(NumError("ParseInt", s, ErrRange))
        else Ok((if neg then -(un as int) else un as int) as int64)
  }

  // ---------------------------------------------------------------------------------------
  // What ParseInt accepts

  /** An optional sign followed by one or more decimal digits. */
  predicate IsIntText(s: string) {
    |Unsigned(s)| > 0 && AllDigits(Unsigned(s))
  }

  /** The integer an IsIntText string denotes, without any range limit. */
  function IntTextValue(s: string): int
    requires IsIntText(s)
  {
    var v: int := DigitsValue(Unsigned(s));
    if s[0] == '-' then -v else v
  }

  /** Left-to-right accumulation of digits onto `acc`, as the scan loop computes it. */
  function Fold(acc: nat, s: string): nat
    requires AllDigits(s)
    decreases |s|
  {
    if s == [] then acc else Fold(10 * acc + DigitValue(s[0]), s[1..])
  }

  lemma {:induction false} FoldAtLeast(acc: nat, s: string)
    requires AllDigits(s)
    ensures Fold(acc, s) >= acc
    decreases |s|
  {
    if s != [] {
      FoldAtLeast(10 * acc + DigitValue(s[0]), s[1..]);
    }
  }

  lemma {:induction false} FoldSnoc(acc: nat, s: string, c: char)
    requires AllDigits(s) && IsDigit(c)
    ensures AllDigits(s + [c])
    ensures Fold(acc, s + [c]) == 10 * Fold(acc, s) + DigitValue(c)
    decreases |s|
  {
    if s != [] {
      assert (s + [c])[1..] == s[1..] + [c];
      FoldSnoc(10 * acc + DigitValue(s[0]), s[1..], c);
    }
  }

  /** The left-to-right scan computes the same value as the right-to-left definition. */
  lemma {:induction false} FoldIsDigitsValue(s: string)
    requires AllDigits(s)
    ensures Fold(0, s) == DigitsValue(s)
    decreases |s|
  {
    if s != [] {
      var init := s[..|s| - 1];
      FoldIsDigitsValue(init);
      FoldSnoc(0, init, s[|s| - 1]);
      assert init + [s[|s| - 1]] == s;
    }
  }

  /** The scan succeeds exactly on digit strings whose value fits in 64 unsigned bits. */
  lemma {:induction false} ScanDigitsCorrect(s: string, acc: nat)
    requires acc <= MaxUint64
    ensures ScanDigits(s, acc).Ok? <==> AllDigits(s) && Fold(acc, s) <= MaxUint64
    ensures ScanDigits(s, acc).Ok? ==> ScanDigits(s, acc).value == Fold(acc, s)
    ensures AllDigits(s) && Fold(acc, s) > MaxUint64 ==> ScanDigits(s, acc) == Err(ErrRange)
    decreases |s|
  {
    if s != [] {
      assert AllDigits(s) <==> IsDigit(s[0]) && AllDigits(s[1..]) by {
        assert forall i :: 1 <= i < |s| ==> s[i] == s[1..][i - 1];
      }
      if IsDigit(s[0]) {
        var next := 10 * acc + DigitValue(s[0]);
        if next <= MaxUint64 {
          ScanDigitsCorrect(s[1..], next);
        } else if AllDigits(s) {
          FoldAtLeast(next, s[1..]);
        }
      }
    }
  }

  /**
   * ParseUint (base 10, 64 bits) accepts exactly a non-empty run of digits whose value fits
   * in 64 unsigned bits and returns that value; a run of digits too large is a range error.
   */
  lemma ParseUintCorrect(s: string)
    ensures ParseUint(s).Ok? <==> s != [] && AllDigits(s) && DigitsValue(s) <= MaxUint64
    ensures ParseUint(s).Ok? ==> ParseUint(s).value == DigitsValue(s)
    ensures s != [] && AllDigits(s) && DigitsValue(s) > MaxUint64 ==> ParseUint(s) == Err(ErrRange)
  {
    if s != [] {
      ScanDigitsCorrect(s, 0);
      if AllDigits(s) {
        FoldIsDigitsValue(s);
      }
    }
  }

  /**
   * ParseInt accepts exactly an optional sign and at least one digit whose value lies in
   * the int64 range, and returns that value; any other text is an error carrying the text.
   */
  lemma ParseIntCorrect(s: string)
    ensures ParseInt(s).Ok? <==> IsIntText(s) && MinInt64 <= IntTextValue(s) <= MaxInt64
    ensures ParseInt(s).Ok? ==> ParseInt(s).value as int == IntTextValue(s)
    ensures IsIntText(s) && !(MinInt64 <= IntTextValue(s) <= MaxInt64) ==>
              ParseInt(s) == Err(NumError("ParseInt", s, ErrRange))
  {
    var body := Unsigned(s);
    if s != [] && body != [] {
      ScanDigitsCorrect(body, 0);
      if AllDigits(body) {
        FoldIsDigitsValue(body);
      }
    }
  }

  /** The shortest decimal form of every int64 parses back to the same value. */
  lemma DecimalRoundTrip(x: int64)
    ensures IsIntText(Decimal(x as int))
    ensures ParseInt(Decimal(x as int)) == Ok(x)
  {
    var u := if x < 0 then -(x as int) else x as int;
    var digits := FixedDigits(u, DigitCount(u));
    var s := Decimal(x as int);
    assert digits[0] != '+' && digits[0] != '-' by {
      assert IsDigit(digits[0]);
    }
    assert Unsigned(s) == digits;
    assert DigitsValue(digits) == u;
    assert IsIntText(s);
    assert IntTextValue(s) == x as int;
    ParseIntCorrect(s);
  }
}
