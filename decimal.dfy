/** Decimal notation of non-negative integers, as Go's `%d` verb writes them. */
module Decimal {

  predicate IsDigit(c: char) {
    '0' <= c <= '9'
  }

  predicate IsDigits(s: string) {
    |s| > 0 && forall i :: 0 <= i < |s| ==> IsDigit(s[i])
  }

  function DigitChar(d: nat): (c: char)
    requires d < 10
    ensures IsDigit(c)
  {
    ('0' as int + d) as char
  }

  function DigitValue(c: char): (d: nat)
    requires IsDigit(c)
    ensures d < 10 && DigitChar(d) == c
  {
    c as int - '0' as int
  }

  /** `%d` of a non-negative integer: digits only, and no leading zero unless the number is 0. */
  function Format(n: nat): (s: string)
    ensures IsDigits(s)
    ensures s[0] == '0' <==> n == 0
    decreases n
  {
    if n < 10 then [DigitChar(n)] else Format(n / 10) + [DigitChar(n % 10)]
  }

  /** The value of a string of decimal digits, most significant first. */
  function Value(s: string): nat
    requires forall i :: 0 <= i < |s| ==> IsDigit(s[i])
  {
    if s == [] then 0 else 10 * Value(s[..|s| - 1]) + DigitValue(s[|s| - 1])
  }

  /** Reading back what Format writes gives the number. */
  lemma {:induction false} ValueOfFormat(n: nat)
    ensures Value(Format(n)) == n
    decreases n
  {
    var s := Format(n);
    if n < 10 {
      assert s[..|s| - 1] == [];
    } else {
      ValueOfFormat(n / 10);
      assert s[..|s| - 1] == Format(n / 10);
    }
  }

  /** A digit string whose first digit is not 0 has a positive value. */
  lemma {:induction false} ValuePositive(s: string)
    requires IsDigits(s) && s[0] != '0'
    ensures Value(s) > 0
    decreases |s|
  {
    if |s| > 1 {
      var p := s[..|s| - 1];
      assert p[0] == s[0];
      ValuePositive(p);
    } else {
      assert s[..|s| - 1] == [];
    }
  }

  /** Format is onto the canonical digit strings: every one of them is the format of its value. */
  lemma {:induction false} FormatOfValue(s: string)
    requires IsDigits(s) && (s[0] == '0' ==> |s| == 1)
    ensures Format(Value(s)) == s
    decreases |s|
  {
    var d := DigitValue(s[|s| - 1]);
    var p := s[..|s| - 1];
    if |s| == 1 {
      assert p == [];
      assert Value(s) == d;
    } else {
      assert p[0] == s[0];
      ValuePositive(p);
      FormatOfValue(p);
      var n := Value(s);
      assert n == 10 * Value(p) + d;
      assert n / 10 == Value(p) && n % 10 == d;
      assert s == p + [s[|s| - 1]];
    }
  }
}
