/** Decimal formatting of natural numbers, as the `%d` verb of Go's fmt package
    writes a non-negative int: most significant digit first, no sign, no leading
    zeros. */
module Decimal {

  predicate IsDigit(c: char) {
    '0' <= c <= '9'
  }

  function DigitChar(d: nat): (c: char)
    requires d < 10
    ensures IsDigit(c) && c as int - '0' as int == d
  {
    ('0' as int + d) as char
  }

  function DigitValue(c: char): (d: nat)
    requires IsDigit(c)
    ensures d < 10 && DigitChar(d) == c
  {
    c as int - '0' as int
  }

  /** The `%d` rendering of `n`. */
  function Format(n: nat): (s: string)
    decreases n
  {
    if n < 10 then [DigitChar(n)] else Format(n / 10) + [DigitChar(n % 10)]
  }

  /** Reads a string of decimal digits back as a number. */
  function Parse(s: string): (n: nat)
    requires forall i :: 0 <= i < |s| ==> IsDigit(s[i])
    decreases |s|
  {
    if s == [] then 0 else Parse(s[..|s| - 1]) * 10 + DigitValue(s[|s| - 1])
  }

  /** The rendering is a non-empty string of digits whose first digit is zero
      only when the number is zero. */
  lemma {:induction false} FormatWellFormed(n: nat)
    ensures Format(n) != []
    ensures forall i :: 0 <= i < |Format(n)| ==> IsDigit(Format(n)[i])
    ensures Format(n)[0] == '0' ==> n == 0
    decreases n
  {
    if n >= 10 {
      FormatWellFormed(n / 10);
      assert Format(n)[0] == Format(n / 10)[0];
    }
  }

  /** Parse inverts Format. */
  lemma {:induction false} ParseFormat(n: nat)
    ensures forall i :: 0 <= i < |Format(n)| ==> IsDigit(Format(n)[i])
    ensures Parse(Format(n)) == n
    decreases n
  {
    FormatWellFormed(n);
    if n >= 10 {
      var s := Format(n);
      assert s[..|s| - 1] == Format(n / 10);
      ParseFormat(n / 10);
    }
  }

  /** Distinct numbers have distinct renderings. */
  lemma FormatInjective(m: nat, n: nat)
    ensures Format(m) == Format(n) ==> m == n
  {
    ParseFormat(m);
    ParseFormat(n);
  }
}
