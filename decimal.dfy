/** Decimal numerals: Python's `"%d" % n` and `int(s)` on strings of ASCII
    digits, with an optional minus sign. */
module Decimal {
  import opened Wrappers

  predicate IsDigit(c: char) {
    '0' <= c <= '9'
  }

  predicate IsDigits(s: string) {
    forall i :: 0 <= i < |s| ==> IsDigit(s[i])
  }

  /** A numeral as `%d` writes it: at least one digit, no leading zero. */
  predicate IsCanonical(s: string) {
    0 < |s| && IsDigits(s) && (s[0] == '0' ==> |s| == 1)
  }

  function DigitChar(d: nat): (c: char)
    requires d < 10
    ensures IsDigit(c) && DigitValue(c) == d
  {
    ('0' as int + d) as char
  }

  function DigitValue(c: char): (d: nat)
    requires IsDigit(c)
    ensures d < 10
  {
    c as int - '0' as int
  }

  /** `"%d" % n`. */
  function Format(n: nat): (s: string)
    ensures IsCanonical(s)
    ensures s[0] == '0' <==> n == 0
  {
    if n < 10 then [DigitChar(n)] else Format(n / 10) + [DigitChar(n % 10)]
  }

  /** `int(s)` on digits; leading zeros are accepted, as Python accepts them. */
  function Parse(s: string): (n: nat)
    requires IsDigits(s)
  {
    if s == [] then 0 else Parse(s[..|s| - 1]) * 10 + DigitValue(s[|s| - 1])
  }

  lemma {:induction false} ParseFormat(n: nat)
    ensures Parse(Format(n)) == n
  {
    if n >= 10 {
      var s := Format(n);
      assert s[..|s| - 1] == Format(n / 10);
      ParseFormat(n / 10);
    }
  }

  lemma {:induction false} ParsePositive(s: string)
    requires IsDigits(s) && 0 < |s| && s[0] != '0'
    ensures Parse(s) > 0
  {
    if |s| > 1 {
      ParsePositive(s[..|s| - 1]);
    }
  }

  lemma {:induction false} FormatParse(s: string)
    requires IsCanonical(s)
    ensures Format(Parse(s)) == s
  {
    if |s| > 1 {
      var t := s[..|s| - 1];
      var c := s[|s| - 1];
      ParsePositive(t);
      FormatParse(t);
      LastDigit(Parse(t), DigitValue(c));
      assert DigitChar(DigitValue(c)) == c;
      assert s == t + [c];
    }
  }

  lemma LastDigit(x: nat, d: nat)
    requires d < 10
    ensures (x * 10 + d) / 10 == x && (x * 10 + d) % 10 == d
  {
  }

  /** `"%d" % i` for any integer: a minus sign before the digits of a
      negative number. */
  function FormatInt(i: int): (s: string) {
    if i < 0 then "-" + Format(-i) else Format(i)
  }

  /** An optional minus sign followed by digits, as `int(s)` reads them. */
  function ParseInt(s: string): (r: Option<int>) {
    if 1 < |s| && s[0] == '-' && IsDigits(s[1..]) then Some(-(Parse(s[1..]) as int))
    else if 0 < |s| && IsDigits(s) then Some(Parse(s))
    else None
  }

  lemma ParseFormatInt(i: int)
    ensures ParseInt(FormatInt(i)) == Some(i)
  {
    if i < 0 {
      var s := FormatInt(i);
      assert s[1..] == Format(-i);
      ParseFormat(-i);
    } else {
      ParseFormat(i);
    }
  }
}
