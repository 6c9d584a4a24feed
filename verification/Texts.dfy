/** Decimal numbers and spaces in text. */
module Texts {

  predicate IsDigit(c: char) {
    '0' <= c <= '9'
  }

  function DigitOf(d: nat): char
    requires d < 10
  {
    '0' + d as char
  }

  function Pow10(digits: nat): nat {
    if digits == 0 then 1 else 10 * Pow10(digits - 1)
  }

  /** A natural number in decimal, without leading zeros. */
  function Print(n: nat): string {
    if n < 10 then [DigitOf(n)] else Print(n / 10) + [DigitOf(n % 10)]
  }

  function PrintInt(n: int): string {
    if n < 0 then "-" + Print(-n) else Print(n)
  }

  function ValueOf(s: string): nat
    requires forall c | c in s :: IsDigit(c)
  {
    if s == [] then
      0
    else
      assert IsDigit(s[|s| - 1]);
      10 * ValueOf(s[..|s| - 1]) + (s[|s| - 1] as int - '0' as int)
  }

  lemma {:induction false} PrintedDigits(n: nat)
    ensures forall c | c in Print(n) :: IsDigit(c)
    ensures ValueOf(Print(n)) == n
    ensures |Print(n)| > 0 && (n > 0 ==> Print(n)[0] != '0')
  {
    if n < 10 {
      assert Print(n)[..0] == [];
    } else {
      PrintedDigits(n / 10);
      assert Print(n)[..|Print(n)| - 1] == Print(n / 10);
    }
  }

  lemma PrintIsInjective(m: nat, n: nat)
    requires Print(m) == Print(n)
    ensures m == n
  {
    PrintedDigits(m);
    PrintedDigits(n);
  }

  lemma {:induction false} PrintedLength(n: nat, digits: nat)
    requires digits > 0
    ensures |Print(n)| <= digits <==> n < Pow10(digits)
  {
    if digits > 1 && n >= 10 {
      PrintedLength(n / 10, digits - 1);
    }
    if digits == 1 {
      assert Pow10(1) == 10 * Pow10(0);
    } else if n < 10 {
      PowerAtLeastTen(digits);
    }
  }

  lemma {:induction false} PowerAtLeastTen(digits: nat)
    requires digits > 0
    ensures Pow10(digits) >= 10
  {
    if digits > 1 {
      PowerAtLeastTen(digits - 1);
    } else {
      assert Pow10(digits) == 10 * Pow10(0);
    }
  }

  lemma PrintGrows(m: nat, n: nat)
    requires m <= n
    ensures |Print(m)| <= |Print(n)|
  {
    PrintedDigits(n);
    PrintedLength(n, |Print(n)|);
    PrintedLength(m, |Print(n)|);
  }

  /** A space in the Unicode sense. */
  predicate IsSpace(c: char) {
    '\t' <= c <= '\r' || '\U{001C}' <= c <= ' ' || c == '\U{0085}' || c == '\U{00A0}' || c == '\U{1680}'
    || '\U{2000}' <= c <= '\U{200A}' || c == '\U{2028}' || c == '\U{2029}' || c == '\U{202F}' || c == '\U{205F}'
    || c == '\U{3000}'
  }
}
