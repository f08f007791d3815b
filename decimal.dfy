/** Decimal text of integers, as a template literal `${n}` renders an integral
    number, together with the parser that inverts it. The temporary ids of
    optimistic entries are built from this text, and the replacement test
    reads it back through a prefix check, so both directions are needed. */
module Decimal {

  predicate IsDigit(c: char) {
    '0' <= c <= '9'
  }

  predicate AllDigits(s: string) {
    forall i :: 0 <= i < |s| ==> IsDigit(s[i])
  }

  /** Text of an integer: an optional minus sign followed by at least one digit. */
  predicate IsIntText(s: string) {
    if |s| > 0 && s[0] == '-' then |s| >= 2 && AllDigits(s[1..]) else |s| >= 1 && AllDigits(s)
  }

  function DigitChar(d: nat): (c: char)
    requires d < 10
    ensures IsDigit(c) && c as int - '0' as int == d
  {
    ('0' as int + d) as char
  }

  function DigitValue(c: char): nat
    requires IsDigit(c)
  {
    c as int - '0' as int
  }

  /** Decimal digits of a natural number, most significant first, no leading zero. */
  function NatToString(n: nat): (s: string)
    ensures |s| >= 1 && AllDigits(s)
    ensures (|s| > 1) == (n >= 10)
    decreases n
  {
    if n < 10 then [DigitChar(n)] else NatToString(n / 10) + [DigitChar(n % 10)]
  }

  /** `${i}` for an integral number i. */
  function IntToString(i: int): (s: string)
    ensures IsIntText(s)
    ensures (s[0] == '-') == (i < 0)
  {
    if i < 0 then "-" + NatToString(-i) else NatToString(i)
  }

  function DigitsValue(s: string): nat
    requires AllDigits(s)
    decreases |s|
  {
    if s == [] then 0 else DigitsValue(s[..|s| - 1]) * 10 + DigitValue(s[|s| - 1])
  }

  function ParseInt(s: string): int
    requires IsIntText(s)
  {
    if s[0] == '-' then -(DigitsValue(s[1..]) as int) else DigitsValue(s)
  }

  lemma {:induction false} NatRoundTrip(n: nat)
    ensures DigitsValue(NatToString(n)) == n
    decreases n
  {
    var s := NatToString(n);
    if n >= 10 {
      assert s[..|s| - 1] == NatToString(n / 10);
      NatRoundTrip(n / 10);
    }
  }

  /** Parsing the rendered text gives the number back. */
  lemma IntRoundTrip(i: int)
    ensures ParseInt(IntToString(i)) == i
  {
    var s := IntToString(i);
    if i < 0 {
      assert s[1..] == NatToString(-i);
      NatRoundTrip(-i);
    } else {
      NatRoundTrip(i);
    }
  }

  /** Distinct integers have distinct texts. */
  lemma IntToStringInjective(a: int, b: int)
    requires IntToString(a) == IntToString(b)
    ensures a == b
  {
    IntRoundTrip(a);
    IntRoundTrip(b);
  }

  lemma NoDashAfterSign(t: string, k: int)
    requires IsIntText(t) && 1 <= k < |t|
    ensures t[k] != '-'
  {
    if t[0] == '-' {
      assert t[1..][k - 1] == t[k];
    }
  }

  /** A dash cannot occur inside the text of an integer except as its sign,
      so a string split as `<int>-<rest>` splits in only one way. */
  lemma UniqueSplit(a: string, b: string, r1: string, r2: string)
    requires IsIntText(a) && IsIntText(b)
    requires a + "-" + r1 == b + "-" + r2
    ensures a == b && r1 == r2
  {
    var x := a + "-" + r1;
    assert x[|a|] == '-' && x[|b|] == '-';
    if |a| < |b| {
      NoDashAfterSign(b, |a|);
    } else if |b| < |a| {
      NoDashAfterSign(a, |b|);
    } else {
      assert a == x[..|a|] == b;
      assert r1 == x[|a| + 1..] == r2;
    }
  }
}
