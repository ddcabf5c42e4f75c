/** Base -2 conversion (bench/judge/judge.go): Horner evaluation of a digit string, and the
    remainder loop that writes an integer back.  The meaning of a digit string is positional,
    as bench/PROBLEM.md gives it: the sum of d_i * (-2)^i. */
module Negabinary {
  import opened Wrappers

  datatype DigitError = EmptyLiteral | InvalidDigit(c: char)

  // ---------- the meaning of a digit string ----------

  predicate IsDigit(c: char) { c == '0' || c == '1' }

  predicate AllDigits(s: string) { forall i :: 0 <= i < |s| ==> IsDigit(s[i]) }

  function Digit(c: char): int { if c == '1' then 1 else 0 }

  /** (-2)^n and 4^n. */
  function Weight(n: nat): int { if n == 0 then 1 else -2 * Weight(n - 1) }

  function Power4(n: nat): int { if n == 0 then 1 else 4 * Power4(n - 1) }

  /** The positional value: the first digit weighs (-2)^(length - 1). */
  function Value(s: string): int {
    if s == "" then 0 else Digit(s[0]) * Weight(|s| - 1) + Value(s[1..])
  }

  /** No leading zero, except "0" itself. */
  predicate Canonical(s: string) {
    s != "" && AllDigits(s) && (s[0] == '1' || s == "0")
  }

  function StripLeadingZeros(s: string): string {
    if |s| > 1 && s[0] == '0' then StripLeadingZeros(s[1..]) else s
  }

  // ---------- Horner's rule ----------

  /** Appending a digit doubles and negates what came before. */
  lemma {:induction false} ValueSnoc(s: string, c: char)
    ensures Value(s + [c]) == -2 * Value(s) + Digit(c)
  {
    if s == "" {
      assert s + [c] == [c];
      assert Value([c]) == Digit(c) * Weight(0) + Value([c][1..]);
    } else {
      assert (s + [c])[1..] == s[1..] + [c];
      ValueSnoc(s[1..], c);
      calc {
        Value(s + [c]);
        Digit(s[0]) * Weight(|s|) + Value(s[1..] + [c]);
        Digit(s[0]) * (-2 * Weight(|s| - 1)) - 2 * Value(s[1..]) + Digit(c);
        -2 * (Digit(s[0]) * Weight(|s| - 1) + Value(s[1..])) + Digit(c);
        -2 * Value(s) + Digit(c);
      }
    }
  }

  method FromNegabinary(s: string) returns (r: Result<int, DigitError>)
    ensures r.Success? <==> s != "" && AllDigits(s)
    ensures r.Success? ==> r.value == Value(s)
    ensures r == Failure(EmptyLiteral) <==> s == ""
    ensures r.Failure? && s != "" ==>
              exists i :: 0 <= i < |s| && !IsDigit(s[i]) && AllDigits(s[..i]) && r.error == InvalidDigit(s[i])
  {
    if s == "" {
      return Failure(EmptyLiteral);
    }
    var v := 0;
    for i := 0 to |s|
      invariant AllDigits(s[..i])
      invariant v == Value(s[..i])
    {
      ValueSnoc(s[..i], s[i]);
      assert s[..i + 1] == s[..i] + [s[i]];
      if s[i] == '0' {
        v := v * -2;
      } else if s[i] == '1' {
        v := v * -2;
        v := v + 1;
      } else {
        return Failure(InvalidDigit(s[i]));
      }
    }
    assert s[..|s|] == s;
    return Success(v);
  }

  // ---------- writing an integer ----------

  /** The size that falls at every step of the remainder loop although |n| need not: -1 goes to 1. */
  function Size(n: int): nat { if n >= 0 then 2 * n else 1 - 2 * n }

  /** big.Int.Quo: division truncated toward zero. */
  function TruncatedQuotient(a: int, b: int): int
    requires b != 0
  {
    if a >= 0 then a / b else -((-a) / b)
  }

  function Abs(n: int): nat { if n >= 0 then n else -n }

  /** One step: the remainder leaves an exact multiple of -2, and the quotient is smaller in Size. */
  lemma StepExact(n: int)
    requires n != 0
    ensures var q := TruncatedQuotient(n - n % 2, -2);
            n == -2 * q + n % 2 && Size(q) < Size(n)
  {
  }

  function Quotient(n: int): int { TruncatedQuotient(n - n % 2, -2) }

  /** The absolute value falls at every step but one: -1 goes to 1. */
  lemma AbsFallsExactlyWhen(n: int)
    requires n != 0
    ensures Abs(Quotient(n)) < Abs(n) <==> n != -1
    ensures Quotient(-1) == 1
  {
    StepExact(n);
    StepExact(-1);
  }

  function DigitOf(n: int): char { if n % 2 == 1 then '1' else '0' }

  /** The digits of n without any leading zero; no digit at all for zero. */
  function Digits(n: int): (s: string)
    ensures AllDigits(s) && Value(s) == n
    ensures n != 0 ==> s != "" && s[0] == '1'
    ensures n == 0 ==> s == ""
    decreases Size(n)
  {
    if n == 0 then "" else
      StepExact(n);
      ValueSnoc(Digits(Quotient(n)), DigitOf(n));
      Digits(Quotient(n)) + [DigitOf(n)]
  }

  function Render(v: int): string { if v == 0 then "0" else Digits(v) }

  function Reversed(s: string): (r: string)
    ensures |r| == |s|
  {
    if s == "" then "" else Reversed(s[1..]) + [s[0]]
  }

  lemma {:induction false} ReversedAt(s: string, k: nat)
    requires k < |s|
    ensures Reversed(s)[k] == s[|s| - 1 - k]
  {
    if k < |s| - 1 {
      ReversedAt(s[1..], k);
    }
  }

  method ReverseInPlace(a: array<char>)
    modifies a
    ensures a[..] == Reversed(old(a[..]))
  {
    var i, j := 0, a.Length - 1;
    while i < j
      invariant 0 <= i <= a.Length && j == a.Length - 1 - i && i <= j + 2
      invariant forall k :: 0 <= k < i ==> a[k] == old(a[a.Length - 1 - k]) && a[a.Length - 1 - k] == old(a[k])
      invariant forall k :: i <= k <= j ==> a[k] == old(a[k])
    {
      a[i], a[j] := a[j], a[i];
      i, j := i + 1, j - 1;
    }
    ghost var was := old(a[..]);
    forall k | 0 <= k < a.Length ensures a[..][k] == Reversed(was)[k] {
      ReversedAt(was, k);
    }
  }

  method ToNegabinary(v: int) returns (s: string)
    ensures s == Render(v)
    ensures Canonical(s) && Value(s) == v
  {
    if v == 0 {
      assert Value("0") == 0 by { assert "0"[1..] == ""; }
      return "0";
    }
    var n := v;
    var digits := "";
    assert Digits(v) + "" == Digits(v);
    while n != 0
      invariant Digits(n) + Reversed(digits) == Digits(v)
      decreases Size(n)
    {
      StepExact(n);
      DigitsStep(n, digits);
      var r := n % 2;
      digits := digits + [if r == 1 then '1' else '0'];
      n := n - r;
      n := TruncatedQuotient(n, -2);
    }
    var a := new char[|digits|](i requires 0 <= i < |digits| => digits[i]);
    assert a[..] == digits;
    ReverseInPlace(a);
    assert "" + Reversed(digits) == Reversed(digits);
    s := a[..];
  }

  lemma DigitsStep(n: int, digits: string)
    requires n != 0
    ensures Digits(Quotient(n)) + Reversed(digits + [DigitOf(n)]) == Digits(n) + Reversed(digits)
  {
    ReversedSnoc(digits, DigitOf(n));
    assert Digits(Quotient(n)) + ([DigitOf(n)] + Reversed(digits)) == Digits(Quotient(n)) + [DigitOf(n)] + Reversed(digits);
  }

  lemma {:induction false} ReversedSnoc(s: string, c: char)
    ensures Reversed(s + [c]) == [c] + Reversed(s)
  {
    if s == "" {
      assert s + [c] == [c] && [c][1..] == "";
    } else {
      assert (s + [c])[1..] == s[1..] + [c];
      ReversedSnoc(s[1..], c);
    }
  }

  // ---------- uniqueness and the two round trips ----------

  lemma {:induction false} SplitLast(s: string)
    requires s != "" && AllDigits(s)
    ensures var m, d := Value(s[..|s| - 1]), Digit(s[|s| - 1]);
            Value(s) == -2 * m + d && d == Value(s) % 2 && m == (d - Value(s)) / 2
  {
    assert s == s[..|s| - 1] + [s[|s| - 1]];
    ValueSnoc(s[..|s| - 1], s[|s| - 1]);
  }

  /** A digit string that starts with 1 is exactly what Digits writes for its value. */
  lemma {:induction false} DigitsOfValue(s: string)
    requires AllDigits(s) && (s != "" ==> s[0] == '1')
    ensures s == Digits(Value(s))
    decreases |s|
  {
    if s != "" {
      var init, n := s[..|s| - 1], Value(s);
      SplitLast(s);
      DigitsOfValue(init);
      assert s == init + [s[|s| - 1]];
      StepExact(n);
      assert DigitOf(n) == s[|s| - 1];
      assert Quotient(n) == Value(init);
    }
  }

  /** Every integer has exactly one representation without leading zeros. */
  lemma Unique(s: string, t: string)
    requires Canonical(s) && Canonical(t) && Value(s) == Value(t)
    ensures s == t
  {
    CanonicalIsRendered(s);
    CanonicalIsRendered(t);
  }

  lemma {:induction false} CanonicalIsRendered(s: string)
    requires Canonical(s)
    ensures s == Render(Value(s))
  {
    if s == "0" {
      assert Value(s) == 0 by { assert s[1..] == ""; }
    } else {
      DigitsOfValue(s);
      assert Value(s) != 0;
    }
  }

  /** Reading back what was written returns the integer. */
  lemma {:induction false} ReadAfterWrite(v: int)
    ensures Canonical(Render(v)) && Value(Render(v)) == v
  {
    if v == 0 {
      assert Value("0") == 0 by { assert "0"[1..] == ""; }
    }
  }

  /** Writing what was read returns the literal without its leading zeros. */
  lemma {:induction false} WriteAfterRead(s: string)
    requires s != "" && AllDigits(s)
    ensures Render(Value(s)) == StripLeadingZeros(s)
    decreases |s|
  {
    if |s| > 1 && s[0] == '0' {
      assert Value(s) == Value(s[1..]);
      WriteAfterRead(s[1..]);
    } else {
      assert s[0] == '1' || s == "0";
      CanonicalIsRendered(s);
    }
  }

  // ---------- how many digits ----------

  /** At most k digits write exactly the integers of an interval. */
  lemma {:induction false} DigitCount(v: int, k: nat)
    ensures |Digits(v)| <= k <==>
            -2 * (Power4(k / 2) - 1) <= 3 * v <= Power4((k + 1) / 2) - 1
    decreases k
  {
    PowerOfFour(k / 2);
    if k > 0 && v != 0 {
      StepExact(v);
      DigitCount(Quotient(v), k - 1);
      PowerOfFour((k - 1) / 2);
      assert (k + 1) / 2 == (k - 1) / 2 + 1;
      IntervalStep(v, Quotient(v), Power4((k - 1) / 2), Power4(k / 2));
    } else {
      PowerOfFour((k + 1) / 2);
    }
  }

  /** One more digit doubles, negates and exchanges the two ends of the interval. */
  lemma IntervalStep(v: int, m: int, low: int, high: int)
    requires v == -2 * m + v % 2 && low % 3 == 1 && high % 3 == 1
    ensures -2 * (low - 1) <= 3 * m <= high - 1 <==> -2 * (high - 1) <= 3 * v <= 4 * low - 1
  {
    var l, h := low / 3, high / 3;
    assert low == 3 * l + 1 && high == 3 * h + 1;
  }

  lemma {:induction false} PowerOfFour(n: nat)
    ensures Power4(n) >= 1 && Power4(n) % 3 == 1
  {
    if n > 0 { PowerOfFour(n - 1); }
  }

  /** The bound for the written form, where zero takes one digit. */
  lemma RenderedLength(v: int, k: nat)
    requires k >= 1
    ensures |Render(v)| <= k <==>
            -2 * (Power4(k / 2) - 1) <= 3 * v <= Power4((k + 1) / 2) - 1
  {
    DigitCount(v, k);
  }
}
