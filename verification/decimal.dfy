/** Base-10 formatting of integers, as Go's `strconv.FormatInt(n, 10)` and the `%d` verb
    produce it, together with the parser that inverts it. */
module Decimal {
  import opened Wrappers

  predicate IsDigit(c: char)
  {
    '0' <= c <= '9'
  }

  predicate IsDigits(s: string)
  {
    forall i :: 0 <= i < |s| ==> IsDigit(s[i])
  }

  function DigitChar(d: nat): (c: char)
    requires d < 10
    ensures IsDigit(c)
  {
    ('0' as int + d) as char
  }

  function DigitValue(c: char): (d: nat)
    requires IsDigit(c)
    ensures d < 10
  {
    c as int - '0' as int
  }

  /** Digits of a natural number, most significant first, without leading zeros. */
  function NatDigits(n: nat): (r: string)
    ensures |r| > 0 && IsDigits(r)
    ensures r[0] == '0' ==> n == 0
  {
    if n < 10 then [DigitChar(n)] else NatDigits(n / 10) + [DigitChar(n % 10)]
  }

  /** A natural number's text as Go prints it: digits, and no leading zero unless the
      number is zero itself. */
  predicate IsNatText(s: string)
  {
    |s| > 0 && IsDigits(s) && (s[0] == '0' ==> |s| == 1)
  }

  /** An integer's text as Go prints it: a natural number's text, or a minus sign
      followed by the text of a positive number (never `-0`). */
  predicate IsIntText(s: string)
  {
    IsNatText(s) || (|s| > 1 && s[0] == '-' && IsNatText(s[1..]) && s[1] != '0')
  }

  /** Decimal text of `n`: a minus sign for negative numbers, then the digits. */
  function Format(n: int): (r: string)
    ensures IsIntText(r)
    ensures |r| > 0
    ensures r[0] == '-' <==> n < 0
    ensures n < 0 ==> IsDigits(r[1..]) && |r| > 1
    ensures n >= 0 ==> IsDigits(r)
  {
    if n < 0 then "-" + NatDigits(-n) else NatDigits(n)
  }

  /** Value of a string of digits. */
  function DigitsValue(s: string): nat
    requires IsDigits(s)
  {
    if |s| == 0 then 0 else DigitsValue(s[..|s| - 1]) * 10 + DigitValue(s[|s| - 1])
  }

  /** Reads an optional minus sign followed by at least one digit. */
  function Parse(s: string): Option<int>
  {
    if |s| > 0 && s[0] == '-' then
      if |s| > 1 && IsDigits(s[1..]) then Some(-(DigitsValue(s[1..]) as int)) else None
    else if |s| > 0 && IsDigits(s) then Some(DigitsValue(s))
    else None
  }

  lemma {:induction false} NatDigitsValue(n: nat)
    ensures DigitsValue(NatDigits(n)) == n
  {
    if n >= 10 {
      var r := NatDigits(n);
      assert r[..|r| - 1] == NatDigits(n / 10);
      NatDigitsValue(n / 10);
    }
  }

  /** Formatting then parsing gives the number back, so the text identifies the number. */
  lemma FormatRoundTrip(n: int)
    ensures Parse(Format(n)) == Some(n)
  {
    if n < 0 {
      assert Format(n)[1..] == NatDigits(-n);
      NatDigitsValue(-n);
    } else {
      NatDigitsValue(n);
    }
  }

  lemma {:induction false} NatTextDigits(s: string)
    requires IsNatText(s)
    ensures NatDigits(DigitsValue(s)) == s
  {
    if |s| > 1 {
      var p := s[..|s| - 1];
      NatTextDigits(p);
      assert NatDigits(DigitsValue(p)) == p;
      var n := DigitsValue(s);
      assert n / 10 == DigitsValue(p) && n % 10 == DigitValue(s[|s| - 1]);
      assert s == p + [s[|s| - 1]];
    }
  }

  /** `Format` is the only text in Go's form that parses to `n`: the label text is
      determined by the number alone. */
  lemma FormatCanonical(s: string, n: int)
    requires IsIntText(s) && Parse(s) == Some(n)
    ensures s == Format(n)
  {
    if s[0] == '-' {
      NatTextDigits(s[1..]);
      assert s == "-" + s[1..];
    } else {
      NatTextDigits(s);
    }
  }

  /** Two numbers with the same decimal text are equal. */
  lemma FormatInjective(m: int, n: int)
    requires Format(m) == Format(n)
    ensures m == n
  {
    FormatRoundTrip(m);
    FormatRoundTrip(n);
  }
}
