/**
  Decimal rendering of integers, as Go's `%v` verb prints an `int`:
  an optional minus sign followed by the digits, most significant first,
  with no leading zeros. `ParseInt` reads such a string back.
  */
module Decimal {

  import opened Wrappers

  predicate IsDigit(c: char)
  {
    '0' <= c <= '9'
  }

  /** A non-empty run of decimal digits. */
  predicate IsDigits(s: string)
  {
    |s| > 0 && forall i :: 0 <= i < |s| ==> IsDigit(s[i])
  }

  function DigitChar(d: nat): (c: char)
    requires d < 10
    ensures IsDigit(c) && c as int - '0' as int == d
  {
    ('0' as int + d) as char
  }

  /** The digits of `n`. */
  function FormatNat(n: nat): (s: string)
    ensures IsDigits(s)
    ensures |s| > 1 ==> s[0] != '0'
    decreases n
  {
    if n < 10 then [DigitChar(n)] else FormatNat(n / 10) + [DigitChar(n % 10)]
  }

  /** `%v` of an `int`. */
  function FormatInt(x: int): (s: string)
    ensures ' ' !in s && '\n' !in s && ':' !in s
  {
    if x < 0 then "-" + FormatNat(-x) else FormatNat(x)
  }

  /** The value of a string of digits. */
  function ParseNat(s: string): nat
    requires forall i :: 0 <= i < |s| ==> IsDigit(s[i])
  {
    if |s| == 0 then 0
    else
      assert IsDigit(s[|s| - 1]);
      ParseNat(s[..|s| - 1]) * 10 + (s[|s| - 1] as int - '0' as int)
  }

  /** Reads an optionally signed decimal number; `None` for anything else. */
  function ParseInt(s: string): Option<int>
  {
    if IsDigits(s) then Some(ParseNat(s))
    else if |s| > 1 && s[0] == '-' && IsDigits(s[1..]) then Some(0 - ParseNat(s[1..]) as int)
    else None
  }

  lemma {:induction false} ParseFormatNat(n: nat)
    ensures ParseNat(FormatNat(n)) == n
    decreases n
  {
    if n >= 10 {
      var s := FormatNat(n);
      assert s[..|s| - 1] == FormatNat(n / 10);
      ParseFormatNat(n / 10);
    }
  }

  /** Rendering then reading gives the number back. */
  lemma ParseFormatInt(x: int)
    ensures ParseInt(FormatInt(x)) == Some(x)
  {
    if x < 0 {
      var s := FormatInt(x);
      assert s[0] == '-' && !IsDigit(s[0]);
      assert s[1..] == FormatNat(-x);
      ParseFormatNat(-x);
    } else {
      ParseFormatNat(x);
    }
  }
}
