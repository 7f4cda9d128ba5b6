/**
 Decimal digit strings: the value `float(token)` gives an ASCII digit run,
 and `str(n)`, the shortest decimal rendering of a natural number.
 */
module Decimal {

  /** An ASCII decimal digit (the model's reading of the regex class `\d`). */
  predicate IsDigit(c: char)
  {
    '0' <= c <= '9'
  }

  predicate AllDigits(t: string)
  {
    forall i :: 0 <= i < |t| ==> IsDigit(t[i])
  }

  /** One or more digits: a group of the accepted grammar. */
  predicate IsDigitRun(t: string)
  {
    |t| > 0 && AllDigits(t)
  }

  function DigitValue(c: char): (d: nat)
    requires IsDigit(c)
    ensures d < 10
  {
    c as int - '0' as int
  }

  function DigitChar(d: nat): (c: char)
    requires d < 10
    ensures IsDigit(c) && DigitValue(c) == d
  {
    ('0' as int + d) as char
  }

  /**
   The number a digit string denotes in base ten, most significant digit
   first; `k` digits denote less than ten to the `k`.
   */
  function Value(t: string): (n: nat)
    requires AllDigits(t)
    ensures n < Pow10(|t|)
    decreases |t|
  {
    if t == [] then 0 else 10 * Value(t[..|t| - 1]) + DigitValue(t[|t| - 1])
  }

  /** Ten to the power `k`. */
  function Pow10(k: nat): (p: nat)
    ensures p > 0
  {
    if k == 0 then 1 else 10 * Pow10(k - 1)
  }

  /** Leading zeros do not change the value: "007" denotes 7. */
  lemma {:induction false} LeadingZero(t: string)
    requires AllDigits(t)
    ensures Value(['0'] + t) == Value(t)
    decreases |t|
  {
    var zt := ['0'] + t;
    if t == [] {
      assert zt[..0] == [];
    } else {
      assert zt[..|zt| - 1] == ['0'] + t[..|t| - 1];
      LeadingZero(t[..|t| - 1]);
    }
  }

  /**
   `str(n)`: a non-empty digit string with no leading zero (other than "0"
   itself) whose value is `n`.
   */
  function Render(n: nat): (t: string)
    ensures IsDigitRun(t) && Value(t) == n
    ensures t[0] == '0' ==> t == "0"
    decreases n
  {
    if n < 10 then
      [DigitChar(n)]
    else
      var t := Render(n / 10) + [DigitChar(n % 10)];
      assert t[..|t| - 1] == Render(n / 10);
      t
  }
}
