/**
 * Decimal numerals as Python's `int()` reads one digit character and as `str()` / an f-string
 * writes an integer.
 */
module Numerals {
  import opened Wrappers

  /** The character of decimal digit `d`. */
  function DigitChar(d: nat): char
    requires d < 10
  {
    ('0' as int + d) as char
  }

  /** `int(c)` for a one-character string: the digit's value, or `None` where Python raises ValueError. */
  function DigitValue(c: char): (r: Option<nat>)
    ensures r.Some? ==> r.value < 10 && DigitChar(r.value) == c
    ensures r.None? ==> forall d :: 0 <= d < 10 ==> DigitChar(d) != c
  {
    if '0' <= c <= '9' then Some((c as int - '0' as int) as nat) else None
  }

  lemma DigitRoundTrip(d: nat)
    requires d < 10
    ensures DigitValue(DigitChar(d)) == Some(d)
  {
  }

  predicate IsDigit(c: char) {
    '0' <= c <= '9'
  }

  /** `str(n)` for a non-negative `n`: most significant digit first, no leading zeros. */
  function NatToString(n: nat): (s: string)
    ensures |s| >= 1 && (forall k :: 0 <= k < |s| ==> IsDigit(s[k]))
    ensures |s| > 1 ==> s[0] != '0'
    decreases n
  {
    if n < 10 then [DigitChar(n)] else NatToString(n / 10) + [DigitChar(n % 10)]
  }

  /** `str(n)`: a minus sign in front of the magnitude when `n` is negative. */
  function IntToString(n: int): (s: string)
    ensures |s| >= 1 && '\n' !in s
  {
    if n < 0 then "-" + NatToString(-n) else NatToString(n)
  }

  /** `int(s)` for a non-empty string of digits. */
  function ParseNat(s: string): nat
    requires forall k :: 0 <= k < |s| ==> IsDigit(s[k])
    decreases |s|
  {
    if s == [] then 0
    else
      assert IsDigit(s[|s| - 1]);
      10 * ParseNat(s[..|s| - 1]) + (s[|s| - 1] as int - '0' as int)
  }

  /** `int(s)` for an optionally signed string of digits. */
  function ParseInt(s: string): int
    requires |s| >= 1
    requires if s[0] == '-' then forall k :: 1 <= k < |s| ==> IsDigit(s[k])
             else forall k :: 0 <= k < |s| ==> IsDigit(s[k])
  {
    if s[0] == '-' then -(ParseNat(s[1..]) as int) else ParseNat(s)
  }

  /** Reading back what `str(n)` wrote gives `n` again, for every non-negative `n`. */
  lemma {:induction false} NatRoundTrip(n: nat)
    ensures ParseNat(NatToString(n)) == n
    decreases n
  {
    var s := NatToString(n);
    if n >= 10 {
      NatRoundTrip(n / 10);
      assert s[..|s| - 1] == NatToString(n / 10);
    }
  }

  /** `int(str(n)) == n` for every integer `n`. */
  lemma IntRoundTrip(n: int)
    ensures var s := IntToString(n); s[0] == '-' <==> n < 0
    ensures ParseInt(IntToString(n)) == n
  {
    var s := IntToString(n);
    if n < 0 {
      assert s[1..] == NatToString(-n);
      NatRoundTrip(-n);
    } else {
      NatRoundTrip(n);
    }
  }
}
