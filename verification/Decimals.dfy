/** Numbers as text: how instance indices are printed and metric values are read. */
module Decimals {
  import opened Common

  function Digit(d: nat): char
    requires d < 10
  {
    ('0' as int + d) as char
  }

  function Decimal(n: nat): (s: string)
    ensures s != []
  {
    if n < 10 then [Digit(n)] else Decimal(n / 10) + [Digit(n % 10)]
  }

  predicate IsDigit(c: char) { '0' <= c <= '9' }

  predicate AllDigits(s: string) {
    forall i :: 0 <= i < |s| ==> IsDigit(s[i])
  }

  /** The number a string of digits stands for. */
  function DigitsValue(s: string): nat
    requires AllDigits(s)
  {
    if s == "" then 0
    else
      assert IsDigit(s[|s| - 1]);
      10 * DigitsValue(s[..|s| - 1]) + (s[|s| - 1] as int - '0' as int)
  }

  /** A base-10 signed 64-bit number, or nothing. */
  function ParseInt(s: string): Option<int> {
    var signed := s != "" && (s[0] == '+' || s[0] == '-');
    var digits := if signed then s[1..] else s;
    if digits == "" || !AllDigits(digits) then None
    else
      var magnitude: int := DigitsValue(digits);
      var v := if signed && s[0] == '-' then -magnitude else magnitude;
      if -0x8000_0000_0000_0000 <= v < 0x8000_0000_0000_0000 then Some(v) else None
  }

  lemma {:induction false} DecimalValue(n: nat)
    ensures AllDigits(Decimal(n)) && DigitsValue(Decimal(n)) == n
  {
    var s := Decimal(n);
    if n < 10 {
      assert s[..0] == "";
    } else {
      DecimalValue(n / 10);
      assert s[..|s| - 1] == Decimal(n / 10);
    }
  }

  /** Reading is the inverse of printing, for either sign and as far as 64 bits go. */
  lemma {:induction false} ParseIntOfDecimal(n: int)
    requires 0 <= n
    ensures ParseInt(Decimal(n)) == if n < 0x8000_0000_0000_0000 then Some(n) else None
    ensures ParseInt("+" + Decimal(n)) == if n < 0x8000_0000_0000_0000 then Some(n) else None
    ensures ParseInt("-" + Decimal(n)) == if n <= 0x8000_0000_0000_0000 then Some(-n) else None
  {
    var s := Decimal(n);
    DecimalValue(n);
    assert IsDigit(s[0]);
    assert ("+" + s)[1..] == s && ("-" + s)[1..] == s;
  }

  /** What the digits are, and what is no number. */
  lemma {:induction false} SomeNumbers()
    ensures Decimal(0) == "0" && Decimal(9) == "9" && Decimal(10) == "10"
    ensures ParseInt("7") == Some(7) && ParseInt("-7") == Some(-7)
    ensures ParseInt("") == None && ParseInt("-") == None && ParseInt("7.5") == None && ParseInt("seven") == None
  {
    assert Decimal(7) == "7";
    ParseIntOfDecimal(7);
    assert "-" + "7" == "-7";
    assert !IsDigit("7.5"[1]) && !IsDigit("seven"[0]);
    assert "-"[1..] == "";
  }

  lemma {:induction false} DecimalInjective(m: nat, n: nat)
    requires Decimal(m) == Decimal(n)
    ensures m == n
  {
    DecimalValue(m);
    DecimalValue(n);
  }
}
