/** Decimal numbers as Python prints them. */
module Decimal {

  predicate IsDigit(c: char) { '0' <= c <= '9' }

  predicate IsNumber(s: string) { s != "" && forall i | 0 <= i < |s| :: IsDigit(s[i]) }

  /** `'%u' % n` */
  function Digits(n: nat): string {
    (if n < 10 then "" else Digits(n / 10)) + [(n % 10 + 48) as char]
  }

  /** `int(s)` for a text of digits. */
  function Value(s: string): nat
    requires forall i | 0 <= i < |s| :: IsDigit(s[i])
  {
    if s == "" then 0
    else
      assert IsDigit(s[|s| - 1]);
      10 * Value(s[..|s| - 1]) + (s[|s| - 1] as int - 48)
  }

  lemma {:induction false} ValueOfDigits(n: nat)
    ensures IsNumber(Digits(n)) && Value(Digits(n)) == n
  {
    var front := if n < 10 then "" else Digits(n / 10);
    if n >= 10 { ValueOfDigits(n / 10); }
    assert Digits(n)[..|Digits(n)| - 1] == front;
  }

  function Power(k: nat): nat { if k == 0 then 1 else 10 * Power(k - 1) }

  lemma TenTimes(a: nat, power: nat, b: nat, d: nat)
    ensures 10 * (a * power + b) + d == a * (10 * power) + (10 * b + d)
  {
    assert a * (10 * power) == 10 * (a * power);
  }

  lemma ValueOfLast(s: string, c: char)
    requires (forall i | 0 <= i < |s| :: IsDigit(s[i])) && IsDigit(c)
    ensures forall i | 0 <= i < |s + [c]| :: IsDigit((s + [c])[i])
    ensures Value(s + [c]) == 10 * Value(s) + (c as int - 48)
  {
    assert (s + [c])[..|s|] == s;
  }

  /** Every digit counts by its place. */
  lemma {:induction false} ValueByPlace(a: string, b: string)
    requires (forall i | 0 <= i < |a| :: IsDigit(a[i])) && forall i | 0 <= i < |b| :: IsDigit(b[i])
    ensures forall i | 0 <= i < |a + b| :: IsDigit((a + b)[i])
    ensures Value(a + b) == Value(a) * Power(|b|) + Value(b)
    decreases |b|
  {
    if b == "" {
      assert a + b == a;
    } else {
      var front, last := b[..|b| - 1], b[|b| - 1];
      assert b == front + [last] && a + b == (a + front) + [last];
      ValueByPlace(a, front);
      ValueOfLast(a + front, last);
      ValueOfLast(front, last);
      TenTimes(Value(a), Power(|front|), Value(front), last as int - 48);
    }
  }

  const DIGITS := "0123456789"

  lemma DigitExactly(c: char)
    ensures IsDigit(c) <==> c in DIGITS
  {
    if IsDigit(c) { assert DIGITS[c as int - 48] == c; }
    assert forall i | 0 <= i < 10 :: DIGITS[i] as int == 48 + i;
  }

  lemma ValueOfDigit(d: nat)
    requires d < 10
    ensures IsDigit(DIGITS[d]) && Value([DIGITS[d]]) == d
  {
    assert DIGITS[d] as int == 48 + d;
    assert [DIGITS[d]][..0] == "";
  }

  /** No leading zero. */
  predicate IsPlain(s: string) { IsNumber(s) && (s[0] != '0' || |s| == 1) }

  /** A number is printed as the text of digits with its value and without leading zeros, and there
      is no other such text. */
  lemma DigitsExactly(n: nat, s: string)
    ensures s == Digits(n) <==> IsPlain(s) && Value(s) == n
  {
    ValueOfDigits(n);
    DigitsHaveNoZero(n);
    if IsPlain(s) { PlainIsDigits(s); }
  }

  lemma OneDigit(c: char)
    requires IsDigit(c)
    ensures IsDigit([c][0]) && Value([c]) == c as int - 48 && Digits(Value([c])) == [c]
  {
    assert [c][..0] == "";
  }

  lemma TwoParts(front: string, last: char)
    requires IsNumber(front) && Value(front) > 0 && IsDigit(last) && Digits(Value(front)) == front
    ensures IsNumber(front + [last]) && Digits(Value(front + [last])) == front + [last]
  {
    ValueOfLast(front, last);
    DigitsOfTwo(Value(front), last as int - 48);
  }

  lemma {:induction false} PlainIsDigits(s: string)
    requires IsPlain(s)
    ensures Digits(Value(s)) == s
  {
    var front, last := s[..|s| - 1], s[|s| - 1];
    assert IsDigit(last) && s == front + [last];
    if front == "" {
      OneDigit(last);
      assert s == [last];
    } else {
      assert IsNumber(front) && front[0] == s[0];
      PlainIsDigits(front);
      PositiveStart(front);
      TwoParts(front, last);
    }
  }

  lemma DigitsOfTwo(m: nat, d: nat)
    requires m > 0 && d < 10
    ensures Digits(10 * m + d) == Digits(m) + [(d + 48) as char]
  {
    assert (10 * m + d) / 10 == m && (10 * m + d) % 10 == d;
  }

  lemma {:induction false} PositiveStart(s: string)
    requires IsNumber(s) && s[0] != '0'
    ensures Value(s) > 0
  {
    if |s| > 1 {
      PositiveStart(s[..|s| - 1]);
    } else {
      assert IsDigit(s[0]) && s[..0] == "";
    }
  }

  lemma {:induction false} DigitsHaveNoZero(n: nat)
    ensures Digits(n) != "" && (Digits(n)[0] != '0' || |Digits(n)| == 1)
    ensures n > 0 ==> Digits(n)[0] != '0'
  {
    if n >= 10 { DigitsHaveNoZero(n / 10); }
  }
}
