/**
 Decimal spelling of non-negative integers, as Python's `str.format` writes
 an `int` into a `{}` placeholder, together with the reading it inverts.
 */
module Decimal {

  import opened Wrappers

  predicate IsDigit(c: char)
  {
    '0' <= c <= '9'
  }

  function DigitChar(d: nat): (c: char)
    requires d < 10
    ensures IsDigit(c)
  {
    ('0' as int + d) as char
  }

  function DigitValue(c: char): (d: nat)
    requires IsDigit(c)
    ensures d < 10
  {
    c as int - '0' as int
  }

  predicate AllDigits(s: string)
  {
    forall i :: 0 <= i < |s| ==> IsDigit(s[i])
  }

  /** A canonical spelling: at least one digit, and no leading zero unless it is "0" itself. */
  predicate Canonical(s: string)
  {
    |s| >= 1 && AllDigits(s) && (s[0] == '0' ==> |s| == 1)
  }

  /** The number a string of digits denotes, most significant digit first. */
  function Value(s: string): (n: nat)
    requires AllDigits(s)
  {
    if |s| == 0 then 0 else Value(s[..|s| - 1]) * 10 + DigitValue(s[|s| - 1])
  }

  /** `str(n)` for `n >= 0`: a canonical spelling that denotes `n`. */
  function FromNat(n: nat): (s: string)
    ensures Canonical(s)
    ensures Value(s) == n
    decreases n
  {
    if n < 10 then
      [DigitChar(n)]
    else
      var front := FromNat(n / 10);
      var s := front + [DigitChar(n % 10)];
      assert s[..|s| - 1] == front;
      s
  }

  /** Reads a canonical spelling back; anything else is refused. */
  function Parse(s: string): (r: Option<nat>)
    ensures r.Some? <==> Canonical(s)
  {
    if Canonical(s) then Some(Value(s)) else None
  }

  lemma ParseFromNat(n: nat)
    ensures Parse(FromNat(n)) == Some(n)
  {
  }

  /** A spelling that does not start with '0' denotes a positive number. */
  lemma {:induction false} NoLeadingZeroIsPositive(s: string)
    requires |s| >= 1 && AllDigits(s) && s[0] != '0'
    ensures Value(s) >= 1
    decreases |s|
  {
    if |s| > 1 {
      NoLeadingZeroIsPositive(s[..|s| - 1]);
    }
  }

  /** Every canonical spelling is the spelling of the number it denotes. */
  lemma {:induction false} FromNatParse(s: string)
    requires Canonical(s)
    ensures FromNat(Value(s)) == s
    decreases |s|
  {
    if |s| > 1 {
      var front := s[..|s| - 1];
      assert Canonical(front);
      NoLeadingZeroIsPositive(front);
      FromNatParse(front);
      assert s == front + [s[|s| - 1]];
    }
  }
}
