/** Whole numbers as decimal text, printed and read back. */
module Decimals {

  function Digit(d: int): char
    requires 0 <= d <= 9
  {
    ('0' as int + d) as char
  }

  predicate IsDigit(c: char) {
    '0' <= c <= '9'
  }

  function ValueOf(c: char): nat
    requires IsDigit(c)
  {
    c as int - '0' as int
  }

  predicate AllDigits(s: string) {
    forall i :: 0 <= i < |s| ==> IsDigit(s[i])
  }

  function Digits(n: nat): (s: string)
    ensures s != [] && AllDigits(s)
  {
    if n < 10 then [Digit(n)] else Digits(n / 10) + [Digit(n % 10)]
  }

  /** With a minus sign in front of a negative number. */
  function Signed(n: int): (s: string)
    ensures s != ""
  {
    if n < 0 then "-" + Digits(-n) else Digits(n)
  }

  /** At least two digits: `String(n).padStart(2, "0")`, `{n:02d}`. */
  function PadTwo(n: nat): string {
    if |Digits(n)| >= 2 then Digits(n) else "0" + Digits(n)
  }

  function ParseNat(s: string): nat
    requires AllDigits(s)
  {
    if s == [] then 0 else 10 * ParseNat(s[..|s| - 1]) + ValueOf(s[|s| - 1])
  }

  lemma {:induction false} DigitsRoundTrip(n: nat)
    ensures ParseNat(Digits(n)) == n
    ensures n >= 10 ==> |Digits(n)| == |Digits(n / 10)| + 1
  {
    if n < 10 {
      assert Digits(n)[..0] == [];
    } else {
      DigitsRoundTrip(n / 10);
      assert Digits(n)[..|Digits(n)| - 1] == Digits(n / 10);
    }
  }

  /** A number has as many digits as its size says, for the sizes a date needs. */
  lemma DigitsLength(n: nat)
    ensures |Digits(n)| == 1 <==> n < 10
    ensures |Digits(n)| <= 2 <==> n < 100
    ensures |Digits(n)| <= 3 <==> n < 1000
    ensures |Digits(n)| <= 4 <==> n < 10000
  {
    DigitsRoundTrip(n);
    if n >= 10 { DigitsRoundTrip(n / 10); }
    if n >= 100 { DigitsRoundTrip(n / 100); }
    if n >= 1000 { DigitsRoundTrip(n / 1000); }
    if n >= 10000 { DigitsRoundTrip(n / 10000); }
  }

  lemma PadTwoRoundTrip(n: nat)
    requires n < 100
    ensures PadTwo(n) == [Digit(n / 10), Digit(n % 10)]
    ensures AllDigits(PadTwo(n)) && ParseNat(PadTwo(n)) == n && ParseNat([Digit(n / 10)]) == n / 10
  {
    DigitsLength(n);
    if n >= 10 { assert Digits(n / 10) == [Digit(n / 10)]; }
    var tens := [Digit(n / 10)];
    assert PadTwo(n)[..1] == tens && tens[..0] == [];
    assert ParseNat([]) == 0;
    assert ParseNat(tens) == n / 10;
  }
}
