/** Base-10 conversion between `uint64` and text, as Go's
    `strconv.ParseUint(s, 10, 64)` and `strconv.FormatUint(n, 10)` do it.
    The persisted last count is written with the one and read with the
    other, and the scraper reads its counters with the first. */
module Strconv {
  import opened Base

  predicate IsDigit(c: char) {
    '0' <= c <= '9'
  }

  predicate AllDigits(s: string) {
    forall i :: 0 <= i < |s| ==> IsDigit(s[i])
  }

  /** A decimal numeral without superfluous leading zeros. */
  predicate Canonical(s: string) {
    s != [] && AllDigits(s) && (s[0] == '0' ==> |s| == 1)
  }

  function DigitValue(c: char): (d: nat)
    requires IsDigit(c)
    ensures d < 10
  {
    c as int - '0' as int
  }

  function DigitChar(d: nat): (c: char)
    requires d < 10
    ensures IsDigit(c) && DigitValue(c) == d
  {
    ('0' as int + d) as char
  }

  /** The (unbounded) number a string of decimal digits denotes. */
  ghost function DigitsValue(s: string): nat
    requires AllDigits(s)
    decreases |s|
  {
    if s == [] then 0 else DigitsValue(s[..|s| - 1]) * 10 + DigitValue(s[|s| - 1])
  }

  /** Why `ParseUint` rejected its input. */
  datatype NumError = ErrSyntax | ErrRange

  /** What `ParseUint` returns: the value and the error, where the value is
      Go's fallback (0 for a syntax error, the largest `uint64` for a range
      error) whenever the error is set. */
  datatype Parsed = Parsed(value: uint64, err: Option<NumError>)

  /** The state of Go's left-to-right digit loop after it has consumed `s`:
      it stops at the first character that is not a digit (syntax error) or
      at the first digit that takes the value past the largest `uint64`
      (range error), whichever comes first. */
  function Scan(s: string): (p: Parsed)
    decreases |s|
    ensures p.err.None? <==> AllDigits(s) && DigitsValue(s) < UINT64_MODULUS
    ensures p.err.None? ==> p.value == DigitsValue(s)
    ensures p.err == Some(ErrSyntax) ==> p.value == 0
    ensures p.err == Some(ErrRange) ==> p.value == MAX_UINT64
  {
    if s == [] then Parsed(0, None)
    else
      var prefix := s[..|s| - 1];
      var c := s[|s| - 1];
      var prev := Scan(prefix);
      assert AllDigits(s) ==> AllDigits(prefix) && DigitsValue(prefix) <= DigitsValue(s);
      if prev.err.Some? then prev
      else if !IsDigit(c) then Parsed(0, Some(ErrSyntax))
      else if prev.value * 10 + DigitValue(c) > MAX_UINT64 then Parsed(MAX_UINT64, Some(ErrRange))
      else Parsed(prev.value * 10 + DigitValue(c), None)
  }

  /** `strconv.ParseUint(s, 10, 64)`: the empty string is a syntax error;
      otherwise the digit loop decides. It succeeds exactly on non-empty
      digit strings whose value fits in 64 bits, and then returns that value. */
  function ParseUint(s: string): (p: Parsed)
    ensures p.err.None? <==> s != [] && AllDigits(s) && DigitsValue(s) < UINT64_MODULUS
    ensures p.err.None? ==> p.value == DigitsValue(s)
    ensures p.err == Some(ErrSyntax) ==> p.value == 0
    ensures p.err == Some(ErrRange) ==> p.value == MAX_UINT64
  {
    if s == [] then Parsed(0, Some(ErrSyntax)) else Scan(s)
  }

  /** `strconv.FormatUint(n, 10)`: the canonical decimal numeral of `n`. */
  function FormatUint(n: uint64): (s: string)
    decreases n
    ensures Canonical(s) && DigitsValue(s) == n
  {
    if n < 10 then [DigitChar(n)]
    else
      var s := FormatUint(n / 10) + [DigitChar(n % 10)];
      assert s[..|s| - 1] == FormatUint(n / 10);
      s
  }

  /** A formatted count parses back to itself without error. */
  lemma ParseFormat(n: uint64)
    ensures ParseUint(FormatUint(n)) == Parsed(n, None)
  {
  }

  /** A canonical numeral that fits in 64 bits is what formatting its parsed
      value gives back: the two conversions are inverse on canonical text. */
  lemma {:induction false} FormatParse(s: string)
    requires Canonical(s) && DigitsValue(s) < UINT64_MODULUS
    ensures FormatUint(ParseUint(s).value) == s
    decreases |s|
  {
    var n := ParseUint(s).value;
    if |s| == 1 {
      assert n == DigitValue(s[0]);
      assert [DigitChar(n)] == s;
    } else {
      var prefix := s[..|s| - 1];
      assert prefix[0] == s[0];
      assert Canonical(prefix);
      LeadingDigitPositive(prefix);
      var m := DigitsValue(prefix);
      var d := DigitValue(s[|s| - 1]);
      assert n == m * 10 + d;
      assert n / 10 == m && n % 10 == d;
      FormatParse(prefix);
      assert ParseUint(prefix).value == m;
      assert DigitChar(d) == s[|s| - 1];
      assert FormatUint(n) == FormatUint(m) + [DigitChar(d)];
      assert s == prefix + [s[|s| - 1]];
    }
  }

  /** A digit string that does not start with '0' denotes a positive number. */
  lemma {:induction false} LeadingDigitPositive(s: string)
    requires s != [] && AllDigits(s) && s[0] != '0'
    ensures DigitsValue(s) >= 1
    decreases |s|
  {
    if |s| > 1 {
      var prefix := s[..|s| - 1];
      assert prefix[0] == s[0];
      LeadingDigitPositive(prefix);
    }
  }

  /** Text whose first character is not a digit is a syntax error, whatever
      follows, so its value is the fallback 0. */
  lemma {:induction false} ParseLeadingNonDigit(s: string)
    requires s != [] && !IsDigit(s[0])
    ensures ParseUint(s) == Parsed(0, Some(ErrSyntax))
    decreases |s|
  {
    if |s| > 1 {
      var prefix := s[..|s| - 1];
      assert prefix[0] == s[0];
      ParseLeadingNonDigit(prefix);
    }
  }

  /** 10 to the power `n`. */
  function Pow10(n: nat): (p: nat)
    ensures p >= 1
  {
    if n == 0 then 1 else 10 * Pow10(n - 1)
  }

  /** A string of `n` digits denotes a number below 10^n. */
  lemma {:induction false} DigitsBelowPow10(s: string)
    requires AllDigits(s)
    ensures DigitsValue(s) < Pow10(|s|)
    decreases |s|
  {
    if s != [] {
      var prefix := s[..|s| - 1];
      DigitsBelowPow10(prefix);
      assert DigitsValue(prefix) + 1 <= Pow10(|prefix|);
    }
  }

  /** On text of at most 19 characters the digit loop never overflows: at
      most 19 digits are read, and 10^19 is below 2^64. */
  lemma {:induction false} ScanShortNoRange(s: string)
    requires |s| <= 19
    ensures Scan(s).err != Some(ErrRange)
    decreases |s|
  {
    if s != [] {
      var prefix := s[..|s| - 1];
      ScanShortNoRange(prefix);
      var prev := Scan(prefix);
      if prev.err.None? {
        DigitsBelowPow10(prefix);
        Pow10Monotone(|prefix|, 18);
        Pow10Values();
      }
    }
  }

  lemma {:induction false} Pow10Monotone(m: nat, n: nat)
    requires m <= n
    ensures Pow10(m) <= Pow10(n)
    decreases n
  {
    if m < n {
      Pow10Monotone(m, n - 1);
    }
  }

  /** Text of at most 19 characters that is not all digits is a syntax
      error, so its value is the fallback 0. Longer text can instead
      overflow before its first non-digit and read as the largest
      `uint64`. */
  lemma ParseShortNonNumeral(s: string)
    requires |s| <= 19 && !AllDigits(s)
    ensures ParseUint(s) == Parsed(0, Some(ErrSyntax))
  {
    assert s != [];
    ScanShortNoRange(s);
    var r := ParseUint(s);
    assert r == Scan(s);
    assert r.err.Some? && r.err.value != ErrRange;
  }

  /** The digit loop raises a syntax error only at a non-digit. */
  lemma {:induction false} ScanDigitsNoSyntax(s: string)
    requires AllDigits(s)
    ensures Scan(s).err != Some(ErrSyntax)
    decreases |s|
  {
    if s != [] {
      ScanDigitsNoSyntax(s[..|s| - 1]);
    }
  }

  /** A string of `n` nines denotes 10^n - 1. */
  lemma {:induction false} NinesValue(s: string)
    requires forall i :: 0 <= i < |s| ==> s[i] == '9'
    ensures AllDigits(s) && DigitsValue(s) == Pow10(|s|) - 1
    decreases |s|
  {
    if s != [] {
      NinesValue(s[..|s| - 1]);
    }
  }

  /** The powers of ten the overflow bounds use. */
  lemma Pow10Values()
    ensures Pow10(18) == 1_000_000_000_000_000_000
    ensures Pow10(20) == 100_000_000_000_000_000_000
  {
    assert Pow10(1) == 10;
    Pow10Add(1, 1);
    Pow10Add(2, 2);
    Pow10Add(4, 4);
    Pow10Add(8, 8);
    Pow10Add(16, 2);
    Pow10Add(16, 4);
  }

  /** Text whose leading digits already exceed the largest `uint64` is a
      range error, whatever follows them: the loop overflows before it
      reaches any later non-digit. */
  lemma {:induction false} ParseOverflowingPrefix(p: string, t: string)
    requires AllDigits(p) && DigitsValue(p) >= UINT64_MODULUS
    ensures ParseUint(p + t) == Parsed(MAX_UINT64, Some(ErrRange))
    decreases |t|
  {
    if t == [] {
      assert p + t == p && p != [];
      ScanDigitsNoSyntax(p);
      var r := ParseUint(p);
      assert r == Scan(p);
      assert r.err.Some? && r.err.value != ErrSyntax;
    } else {
      var u := p + t;
      assert u[..|u| - 1] == p + t[..|t| - 1];
      ParseOverflowingPrefix(p, t[..|t| - 1]);
    }
  }

  /** Twenty nines followed by a letter overflow before the letter is
      reached: the range error, not the syntax error, decides. */
  lemma LongNonNumeralOverflows()
    ensures ParseUint("99999999999999999999x") == Parsed(MAX_UINT64, Some(ErrRange))
  {
    var p := "99999999999999999999";
    NinesValue(p);
    Pow10Values();
    ParseOverflowingPrefix(p, "x");
    assert p + "x" == "99999999999999999999x";
  }

  lemma {:induction false} Pow10Add(m: nat, n: nat)
    ensures Pow10(m + n) == Pow10(m) * Pow10(n)
    decreases m
  {
    if m > 0 {
      Pow10Add(m - 1, n);
    }
  }
}
