/** The per-element workload `CalcIntValue` (parallel-test/Program.cs:127-152).
    Its value is `int.MaxValue / (sum of the character codes of seed.GetHashCode().ToString())`.
    Two library calls are modelled by assumption:
    - `Int32.GetHashCode()` returns the integer itself (`HashCode` below);
    - `Int32.ToString()` gives an optional '-' followed by the decimal digits, without
      leading zeros (`Int32ToString` below). The sign is the current culture's
      `NumberFormatInfo.NegativeSign`, taken here to be the ASCII '-'; the bound of 615 on
      the divisor of a negative seed rests on it. The driver only passes seeds from 0 up.
    The progress-bar output that `CalcIntValue` also performs is not part of its value. */
module Workload {

  const IntMax: int := 0x7FFF_FFFF
  const IntMin: int := -0x8000_0000

  /** The C# `int` type. */
  type Int32 = x: int | IntMin <= x <= IntMax

  predicate IsDigit(c: char) {
    '0' <= c <= '9'
  }

  predicate AllDigits(s: string) {
    forall i :: 0 <= i < |s| ==> IsDigit(s[i])
  }

  function DigitChar(d: nat): (c: char)
    requires d < 10
    ensures IsDigit(c) && c as int == '0' as int + d
  {
    ('0' as int + d) as char
  }

  function DigitValue(c: char): (d: nat)
    requires IsDigit(c)
    ensures d < 10 && DigitChar(d) == c
  {
    c as int - '0' as int
  }

  function Pow10(k: nat): (p: nat)
    ensures p >= 1
  {
    if k == 0 then 1 else 10 * Pow10(k - 1)
  }

  /** The decimal digits of `n`, most significant first: `n.ToString()` for `n >= 0`. */
  function DecimalString(n: nat): (s: string)
    ensures |s| >= 1 && AllDigits(s)
    ensures |s| > 1 ==> s[0] != '0'
  {
    if n < 10 then [DigitChar(n)] else DecimalString(n / 10) + [DigitChar(n % 10)]
  }

  /** Reads a string of decimal digits back as a number; the inverse of `DecimalString`. */
  function ParseDecimal(s: string): (n: nat)
    requires AllDigits(s)
  {
    if s == [] then 0 else 10 * ParseDecimal(s[..|s| - 1]) + DigitValue(s[|s| - 1])
  }

  lemma {:induction false} ParseDecimalString(n: nat)
    ensures ParseDecimal(DecimalString(n)) == n
  {
    if n >= 10 {
      var s := DecimalString(n);
      assert s[..|s| - 1] == DecimalString(n / 10);
      ParseDecimalString(n / 10);
    }
  }

  /** Distinct seeds have distinct decimal strings. */
  lemma DecimalStringInjective(a: nat, b: nat)
    requires DecimalString(a) == DecimalString(b)
    ensures a == b
  {
    ParseDecimalString(a);
    ParseDecimalString(b);
  }

  /** A number below 10^k has at most k digits. */
  lemma {:induction false} DecimalStringLength(n: nat, k: nat)
    requires 1 <= k && n < Pow10(k)
    ensures |DecimalString(n)| <= k
  {
    if n >= 10 {
      assert k >= 2;
      assert n / 10 < Pow10(k - 1);
      DecimalStringLength(n / 10, k - 1);
    }
  }

  /** `Int32.ToString()`: a minus sign for negative values, then the digits of the magnitude. */
  function Int32ToString(x: Int32): (s: string)
    ensures |s| >= 1
    ensures s[0] == '-' <==> x < 0
    ensures AllDigits(if x < 0 then s[1..] else s)
  {
    if x < 0 then "-" + DecimalString(-(x as int)) else DecimalString(x)
  }

  /** `Int32.GetHashCode()` in .NET returns the value itself. */
  function HashCode(seed: Int32): (h: Int32)
    ensures h == seed
  {
    seed
  }

  /** `ToCharArray().Sum(c => (int)c)`. A string of decimal digits sums to between 48 ('0')
      and 57 ('9') per character. */
  function CharCodeSum(s: string): (sum: nat)
    ensures AllDigits(s) ==> 48 * |s| <= sum <= 57 * |s|
  {
    if s == [] then 0 else s[0] as int + CharCodeSum(s[1..])
  }

  lemma {:induction false} CharCodeSumConcat(s: string, t: string)
    ensures CharCodeSum(s + t) == CharCodeSum(s) + CharCodeSum(t)
  {
    if s == [] {
      assert s + t == t;
    } else {
      assert (s + t)[1..] == s[1..] + t;
      CharCodeSumConcat(s[1..], t);
    }
  }

  /** The character-code sum depends only on which characters occur, and how often. */
  lemma {:induction false} CharCodeSumPermutation(s: string, t: string)
    requires multiset(s) == multiset(t)
    ensures CharCodeSum(s) == CharCodeSum(t)
  {
    if s == [] {
      assert |t| == |multiset(t)| == 0;
    } else {
      var c := s[0];
      assert c in multiset(t);
      var j :| 0 <= j < |t| && t[j] == c;
      var rest := t[..j] + t[j + 1..];
      assert t == t[..j] + [c] + t[j + 1..];
      assert s == [c] + s[1..];
      assert multiset(t) == multiset(t[..j]) + multiset{c} + multiset(t[j + 1..]);
      assert multiset(s) == multiset{c} + multiset(s[1..]);
      assert multiset(rest) == multiset(t[..j]) + multiset(t[j + 1..]);
      assert multiset(s[1..]) == multiset(s) - multiset{c};
      assert multiset(rest) == multiset(t) - multiset{c};
      CharCodeSumConcat(t[..j] + [c], t[j + 1..]);
      CharCodeSumConcat(t[..j], [c]);
      CharCodeSumConcat(t[..j], t[j + 1..]);
      CharCodeSumPermutation(s[1..], rest);
    }
  }

  /** The sum of the decimal digits of `n`, by arithmetic alone. */
  function DigitSum(n: nat): (sum: nat) {
    if n < 10 then n else DigitSum(n / 10) + n % 10
  }

  /** An independent reading of the divisor for a non-negative seed: every digit character
      contributes 48 ('0') plus its digit value. */
  lemma {:induction false} DecimalCharCodeSum(n: nat)
    ensures CharCodeSum(DecimalString(n)) == 48 * |DecimalString(n)| + DigitSum(n)
  {
    if n >= 10 {
      DecimalCharCodeSum(n / 10);
      CharCodeSumConcat(DecimalString(n / 10), [DigitChar(n % 10)]);
    }
  }

  /** Bounds on the divisor of `CalcIntValue`: at least 48 (the code of '0'), and at most
      45 (the code of '-') plus 57 (the code of '9') for each of at most ten digits. */
  lemma DivisorBounds(seed: Int32)
    ensures 48 <= CharCodeSum(Int32ToString(HashCode(seed))) <= 45 + 57 * 10
  {
    var m: nat := if seed < 0 then -(seed as int) else seed;
    assert Pow10(10) == 10_000_000_000;
    DecimalStringLength(m, 10);
    DecimalCharCodeSum(m);
    DigitSumBound(m);
    if seed < 0 {
      CharCodeSumConcat("-", DecimalString(m));
    }
  }

  /** Each digit adds at most 9 to the digit sum. */
  lemma {:induction false} DigitSumBound(n: nat)
    ensures DigitSum(n) <= 9 * |DecimalString(n)|
  {
    if n >= 10 {
      DigitSumBound(n / 10);
    }
  }

  /** `CalcIntValue(seed)` (parallel-test/Program.cs:151). The divisor is never zero, so the
      division is always defined, and the quotient is positive. Both operands are positive,
      so C#'s truncating division and Dafny's Euclidean division agree. */
  function CalcIntValue(seed: Int32): (r: Int32)
    ensures 0 < r <= IntMax / 48
  {
    var divisor := CharCodeSum(Int32ToString(HashCode(seed)));
    DivisorBounds(seed);
    DivideBounds(divisor);
    IntMax / divisor
  }

  lemma DivideBounds(d: nat)
    requires 48 <= d <= 615
    ensures 0 < IntMax / d <= IntMax / 48
  {
    var q := IntMax / d;
    assert q * d <= IntMax < (q + 1) * d;
    assert 48 * q <= d * q;
    assert IntMax / 48 * 48 <= IntMax < (IntMax / 48 + 1) * 48;
  }

  /** For a non-negative seed the divisor, and so the value, depends only on the number of
      its decimal digits and their sum. */
  lemma DivisorByDigits(seed: Int32)
    requires seed >= 0
    ensures CharCodeSum(Int32ToString(HashCode(seed))) == 48 * |DecimalString(seed)| + DigitSum(seed)
  {
    DecimalCharCodeSum(seed);
  }

  /** Seeds whose decimal strings are rearrangements of each other give the same value. */
  lemma SameDigitsSameValue(a: Int32, b: Int32)
    requires multiset(Int32ToString(a)) == multiset(Int32ToString(b))
    ensures CalcIntValue(a) == CalcIntValue(b)
  {
    CharCodeSumPermutation(Int32ToString(a), Int32ToString(b));
  }

  lemma CalcIntValueExamples()
    ensures CalcIntValue(0) == 44739242
    ensures CalcIntValue(12) == CalcIntValue(21)
  {
    assert Int32ToString(12) == "12";
    assert Int32ToString(21) == "21";
    assert multiset("12") == multiset("21");
    SameDigitsSameValue(12, 21);
  }
}
