/** Decimal numerals, as the standard library prints and scans them. */
module Decimal {

  predicate IsDigit(c: char) {
    '0' <= c <= '9'
  }

  lemma DigitsAre(c: char)
    ensures IsDigit(c) <==> c as int in {48, 49, 50, 51, 52, 53, 54, 55, 56, 57}
  {
  }

  function DigitsLength(r: string): (n: nat)
    ensures n <= |r| && forall i :: 0 <= i < n ==> IsDigit(r[i])
    ensures n < |r| ==> !IsDigit(r[n])
  {
    if r != "" && IsDigit(r[0]) then 1 + DigitsLength(r[1..]) else 0
  }

  predicate AllDigits(s: string) {
    forall i :: 0 <= i < |s| ==> IsDigit(s[i])
  }

  function NatValue(digits: string): nat
    requires AllDigits(digits)
  {
    if digits == "" then 0
    else 10 * NatValue(digits[..|digits| - 1]) + (digits[|digits| - 1] as int - '0' as int)
  }

  function PrintNat(n: nat): (s: string)
    ensures s != "" && AllDigits(s)
  {
    var digit := '0' + (n % 10) as char;
    if n < 10 then [digit] else PrintNat(n / 10) + [digit]
  }

  function PrintInt(n: int): string {
    if n < 0 then ['-'] + PrintNat(-n) else PrintNat(n)
  }

  lemma {:induction false} DigitsAndMore(digits: string, post: string)
    requires AllDigits(digits) && (post == "" || !IsDigit(post[0]))
    ensures DigitsLength(digits + post) == |digits|
  {
    if digits == "" {
      assert digits + post == post;
    } else {
      assert (digits + post)[1..] == digits[1..] + post;
      DigitsAndMore(digits[1..], post);
    }
  }

  lemma {:induction false} ValueOfPrinted(n: nat)
    ensures NatValue(PrintNat(n)) == n
  {
    var digit := '0' + (n % 10) as char;
    if n < 10 {
      assert [digit][..0] == "";
    } else {
      ValueOfPrinted(n / 10);
      assert PrintNat(n)[..|PrintNat(n)| - 1] == PrintNat(n / 10);
    }
  }
}
