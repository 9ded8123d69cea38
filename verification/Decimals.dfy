// Integers as fmt.Sprint prints them and strconv reads them.
module Decimals {

  function Digits(n: nat): (s: string)
    ensures AllDigits(s)
  {
    if n < 10 then [DigitChar(n)] else Digits(n / 10) + [DigitChar(n % 10)]
  }

  function DigitChar(d: nat): (c: char)
    requires d < 10
    ensures Digit(c)
  {
    '0' + d as char
  }

  predicate Digit(c: char) { '0' <= c <= '9' }

  predicate AllDigits(s: string) {
    s != "" && forall i :: 0 <= i < |s| ==> Digit(s[i])
  }

  function Decimal(n: int): (s: string)
    ensures s != ""
  {
    if n < 0 then "-" + Digits(-n) else Digits(n)
  }

  function NumberOf(s: string): (n: nat)
    requires forall i :: 0 <= i < |s| ==> Digit(s[i])
  {
    if s == "" then 0 else assert Digit(s[|s| - 1]); 10 * NumberOf(s[..|s| - 1]) + (s[|s| - 1] - '0') as int
  }

  lemma {:induction false} DigitsValue(n: nat)
    ensures NumberOf(Digits(n)) == n
  {
    var s := Digits(n);
    if n >= 10 {
      DigitsValue(n / 10);
      assert s[..|s| - 1] == Digits(n / 10);
    } else {
      assert s[..0] == "";
    }
  }

  // There is no zero in front, but for zero itself.
  lemma {:induction false} NoLeadingZero(n: nat)
    ensures Digits(n)[0] == '0' ==> Digits(n) == "0" && n == 0
  {
    if n < 10 {
      assert n == 0 || DigitChar(n) != '0';
    } else {
      NoLeadingZero(n / 10);
      assert Digits(n)[0] == Digits(n / 10)[0];
    }
  }

  // And a sign only in front of negative numbers.
  lemma DecimalShape(n: int)
    ensures n < 0 <==> Decimal(n)[0] == '-'
    ensures Decimal(n)[0] == '0' ==> Decimal(n) == "0" && n == 0
    ensures n < 0 ==> Decimal(n)[1] != '0'
  {
    NoLeadingZero(if n < 0 then -n else n);
    assert Digit(Digits(if n < 0 then -n else n)[0]);
  }
}
