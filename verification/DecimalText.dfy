/** Integers as decimal text. */
module DecimalText {
  import opened CMath

  predicate IsDigit(c: char) {
    '0' <= c <= '9'
  }

  predicate AllDigits(s: string) {
    forall i :: 0 <= i < |s| ==> IsDigit(s[i])
  }

  function DigitOf(d: nat): (c: char)
    requires d < 10
    ensures IsDigit(c)
  {
    ('0' as int + d) as char
  }

  function ValueOfDigit(c: char): (d: nat)
    requires IsDigit(c)
    ensures d < 10 && DigitOf(d) == c
  {
    c as int - '0' as int
  }

  // The digits of n, without leading zeros.
  function Digits(n: nat): (s: string)
    ensures s != "" && AllDigits(s)
    ensures s[0] == '0' ==> n == 0 && s == "0"
  {
    if n < 10 then [DigitOf(n)] else Digits(n / 10) + [DigitOf(n % 10)]
  }

  function Decimal(x: int): string {
    if x < 0 then "-" + Digits(-x) else Digits(x)
  }

  function DigitsValue(s: string): nat
    requires AllDigits(s)
  {
    if s == "" then 0 else DigitsValue(s[..|s| - 1]) * 10 + ValueOfDigit(s[|s| - 1])
  }

  // Text in the form that Decimal produces.
  predicate Canonical(s: string) {
    CanonicalDigits(s) || (|s| > 1 && s[0] == '-' && s[1] != '0' && CanonicalDigits(s[1..]))
  }

  predicate CanonicalDigits(s: string) {
    s != "" && AllDigits(s) && (s[0] == '0' ==> s == "0")
  }

  function ValueOf(s: string): int
    requires Canonical(s)
  {
    if s[0] == '-' then 0 - DigitsValue(s[1..]) else DigitsValue(s)
  }

  lemma {:induction false} DigitsRoundTrip(n: nat)
    ensures DigitsValue(Digits(n)) == n
  {
    var s := Digits(n);
    if n < 10 {
      assert s[..0] == "";
    } else {
      DigitsRoundTrip(n / 10);
      assert s[..|s| - 1] == Digits(n / 10);
    }
  }

  function Power10(k: nat): (p: nat)
    ensures p > 0
  {
    if k == 0 then 1 else 10 * Power10(k - 1)
  }

  /** The k-th character from the end is the k-th decimal digit of n. */
  lemma {:induction false} DigitAt(n: nat, k: nat)
    requires k < |Digits(n)|
    ensures Digits(n)[|Digits(n)| - 1 - k] as int == '0' as int + n / Power10(k) % 10
    decreases k
  {
    if k > 0 {
      DigitAt(n / 10, k - 1);
      DivideByParts(n, 10, Power10(k - 1));
    }
  }

  lemma {:induction false} CanonicalDigitsRoundTrip(s: string)
    requires CanonicalDigits(s)
    ensures Digits(DigitsValue(s)) == s
    ensures s != "0" ==> DigitsValue(s) > 0
  {
    var front, last := s[..|s| - 1], s[|s| - 1];
    if |s| == 1 {
      assert front == "";
      assert DigitsValue(s) == ValueOfDigit(last);
      assert s == [last];
    } else {
      CanonicalDigitsRoundTrip(front);
      assert DigitsValue(s) / 10 == DigitsValue(front) && DigitsValue(s) % 10 == ValueOfDigit(last);
      assert s == front + [last];
    }
  }

  /** Decimal text is canonical and reads back as the integer, negative ones too. */
  lemma DecimalRoundTrip(x: int)
    ensures Canonical(Decimal(x)) && ValueOf(Decimal(x)) == x
  {
    if x < 0 {
      DigitsRoundTrip(-x);
      assert Decimal(x)[1..] == Digits(-x);
    } else {
      DigitsRoundTrip(x);
    }
  }

  /** Canonical text is the decimal text of the integer it reads as. */
  lemma CanonicalRoundTrip(s: string)
    requires Canonical(s)
    ensures Decimal(ValueOf(s)) == s
  {
    if s[0] == '-' {
      CanonicalDigitsRoundTrip(s[1..]);
      assert s == "-" + s[1..];
    } else {
      CanonicalDigitsRoundTrip(s);
    }
  }

  lemma {:induction false} DigitCount(n: nat, k: nat)
    requires k > 0 && n < Power10(k)
    ensures |Digits(n)| <= k
  {
    if n >= 10 {
      assert k > 1;
      DigitCount(n / 10, k - 1);
    }
  }

  const MAX_DECIMAL := 20

  /** A signed or unsigned 64-bit integer takes at most 20 characters. */
  lemma DecimalLength(x: int)
    requires -0x8000_0000_0000_0000 <= x < 0x1_0000_0000_0000_0000
    ensures |Decimal(x)| <= MAX_DECIMAL
  {
    assert Power10(5) == 100000;
    assert Power10(10) == 10000000000;
    assert Power10(15) == 1000000000000000;
    assert Power10(19) == 10000000000000000000;
    assert Power10(20) == 100000000000000000000;
    if x < 0 { DigitCount(-x, 19); } else { DigitCount(x, 20); }
  }
}
