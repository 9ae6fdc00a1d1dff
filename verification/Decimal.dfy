/** Decimal text of integers, as strconv writes and reads it. */
module Decimal {
  import opened Wrappers

  const MIN_INT := -0x8000_0000_0000_0000
  const MAX_INT := 0x7FFF_FFFF_FFFF_FFFF

  /** Go's `int` on a 64-bit build. */
  type Int = n: int | MIN_INT <= n <= MAX_INT

  predicate IsDigit(c: char) {
    '0' <= c <= '9'
  }

  predicate AllDigits(s: string) {
    forall i :: 0 <= i < |s| ==> IsDigit(s[i])
  }

  function Digit(d: nat): (c: char)
    requires d < 10
    ensures IsDigit(c) && DigitValue(c) == d
  {
    "0123456789"[d]
  }

  function DigitValue(c: char): nat
    requires IsDigit(c)
  {
    c as int - '0' as int
  }

  /** `strconv.Itoa` of a non-negative number. */
  function Itoa(n: nat): (s: string)
    ensures s != ""
  {
    if n < 10 then [Digit(n)] else Itoa(n / 10) + [Digit(n % 10)]
  }

  /** `strconv.FormatInt` in base ten. */
  function FormatInt(x: int): string {
    if x < 0 then "-" + Itoa(-x) else Itoa(x)
  }

  function Value(s: string): nat
    requires AllDigits(s)
  {
    if s == "" then 0 else 10 * Value(s[..|s| - 1]) + DigitValue(s[|s| - 1])
  }

  /** `strconv.Atoi`: an optional sign, then digits, within the range of int. */
  function Atoi(s: string): Option<Int> {
    var signed := s != "" && (s[0] == '-' || s[0] == '+');
    var digits := if signed then s[1..] else s;
    if digits == "" || !AllDigits(digits) then
      None
    else
      var n: int := if signed && s[0] == '-' then 0 - Value(digits) else Value(digits);
      if MIN_INT <= n <= MAX_INT then Some(n) else None
  }

  /** Printing a number and reading its digits back is the identity, and no digit is wasted. */
  lemma {:induction false} ItoaReads(n: nat)
    ensures AllDigits(Itoa(n)) && Value(Itoa(n)) == n
    ensures Itoa(n)[0] == '0' ==> n == 0
    decreases n
  {
    if n >= 10 {
      ItoaReads(n / 10);
      var s := Itoa(n);
      assert s[..|s| - 1] == Itoa(n / 10);
    }
  }

  lemma AtoiOfItoa(n: nat)
    requires n <= MAX_INT
    ensures Atoi(Itoa(n)) == Some(n)
  {
    ItoaReads(n);
    assert IsDigit(Itoa(n)[0]);
  }

  /** With a sign too. */
  lemma AtoiOfFormatInt(n: int)
    requires MIN_INT <= n <= MAX_INT
    ensures Atoi(FormatInt(n)) == Some(n)
  {
    if n >= 0 {
      AtoiOfItoa(n);
    } else {
      var digits := Itoa(0 - n);
      ItoaReads(0 - n);
      assert FormatInt(n) == "-" + digits;
      assert FormatInt(n)[0] == '-' && FormatInt(n)[1..] == digits;
    }
  }

  /** A smaller number never takes more characters. */
  lemma {:induction false} ItoaGrows(m: nat, n: nat)
    requires m <= n
    ensures |Itoa(m)| <= |Itoa(n)|
    decreases n
  {
    if m >= 10 { ItoaGrows(m / 10, n / 10); }
  }
}
