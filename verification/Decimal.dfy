/** Decimal numerals: what a printer must produce and how they are read back. */
module Decimal {

  function Digit(d: int): char
    requires 0 <= d < 10
  {
    '0' + d as char
  }

  predicate IsDigit(c: char) {
    '0' <= c <= '9'
  }

  /** The canonical numeral. */
  function Numeral(n: nat): (s: string)
    ensures s != [] && forall i :: 0 <= i < |s| ==> IsDigit(s[i])
  {
    if n < 10 then [Digit(n)] else Numeral(n / 10) + [Digit(n % 10)]
  }

  function DigitValue(c: char): (d: nat)
    requires IsDigit(c)
  {
    c as int - '0' as int
  }

  /** The value of a string of digits. */
  function Read(s: string): nat
    requires forall i :: 0 <= i < |s| ==> IsDigit(s[i])
  {
    if s == "" then 0 else 10 * Read(s[..|s| - 1]) + DigitValue(s[|s| - 1])
  }

  predicate Canonical(s: string) {
    && s != ""
    && (forall i :: 0 <= i < |s| ==> IsDigit(s[i]))
    && (s[0] == '0' ==> |s| == 1)
  }

  lemma {:induction false} NumeralReadsBack(n: nat)
    ensures Read(Numeral(n)) == n && Canonical(Numeral(n))
    ensures Numeral(n)[0] == '0' ==> n == 0
    decreases n
  {
    var s := Numeral(n);
    if n < 10 {
      assert s[..0] == "";
    } else {
      NumeralReadsBack(n / 10);
      assert s[..|s| - 1] == Numeral(n / 10);
    }
  }

  /** Numerals are the only canonical strings of digits. */
  lemma {:induction false} ReadingIsFaithful(s: string)
    requires Canonical(s)
    ensures Numeral(Read(s)) == s && (s[0] != '0' ==> Read(s) > 0)
    decreases |s|
  {
    var front, last := s[..|s| - 1], s[|s| - 1];
    if |s| == 1 {
      assert Read(front) == 0;
      assert s == [last];
    } else {
      ReadingIsFaithful(front);
      assert Read(s) / 10 == Read(front) && Read(s) % 10 == DigitValue(last);
      assert s == front + [last];
    }
  }

  /** Canonical strings of digits and natural numbers correspond one to one. */
  lemma NumeralsCorrespond(s: string, n: nat)
    ensures s == Numeral(n) <==> Canonical(s) && Read(s) == n
  {
    NumeralReadsBack(n);
    if Canonical(s) { ReadingIsFaithful(s); }
  }

  /** `std::to_string` on integers. */
  function ToString(n: int): string {
    if n < 0 then "-" + Numeral(-n) else Numeral(n)
  }
}
