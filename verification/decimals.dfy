/** Decimal text, as strconv.FormatUint and the daemon client's own itoa write it. */
module Decimals {

  predicate IsDigit(c: char) {
    '0' <= c <= '9'
  }

  function DigitValue(c: char): nat
    requires IsDigit(c)
  {
    c as nat - '0' as nat
  }

  function DigitChar(d: nat): (c: char)
    requires d < 10
    ensures IsDigit(c) && DigitValue(c) == d
  {
    (d + '0' as nat) as char
  }

  /** The digits of a positive number; none for zero. */
  function Digits(n: nat): (s: string)
    ensures forall c :: c in s ==> IsDigit(c)
    ensures n > 0 ==> s != ""
  {
    if n == 0 then "" else Digits(n / 10) + [DigitChar(n % 10)]
  }

  function Decimal(n: nat): (s: string)
    ensures s != "" && forall c :: c in s ==> IsDigit(c)
  {
    if n == 0 then "0" else Digits(n)
  }

  /** The number a string of digits spells. */
  function Value(s: string): nat
    requires forall c :: c in s ==> IsDigit(c)
  {
    if s == "" then 0 else Value(s[..|s| - 1]) * 10 + DigitValue(s[|s| - 1])
  }

  lemma {:induction false} ValueOfDigits(n: nat)
    ensures Value(Digits(n)) == n
  {
    if n > 0 {
      ValueOfDigits(n / 10);
      assert Digits(n)[..|Digits(n)| - 1] == Digits(n / 10);
    }
  }

  lemma ValueOfDecimal(n: nat)
    ensures Value(Decimal(n)) == n
  {
    ValueOfDigits(n);
    assert Decimal(0)[..0] == "";
  }

  lemma DecimalInjective(m: nat, n: nat)
    requires Decimal(m) == Decimal(n)
    ensures m == n
  {
    ValueOfDecimal(m);
    ValueOfDecimal(n);
  }

  /** The ten digits in order, most significant first. */
  lemma DecimalDigits(n: nat, d: nat)
    requires d < 10
    ensures Decimal(d) == ["0123456789"[d]]
    ensures n > 0 ==> Decimal(10 * n + d) == Decimal(n) + ["0123456789"[d]]
  {
    assert Digits(0) == "" && Digits(d) == if d == 0 then "" else Digits(0) + [DigitChar(d)];
    assert DigitChar(d) == "0123456789"[d];
    assert (10 * n + d) / 10 == n && (10 * n + d) % 10 == d;
  }

  lemma SmallDecimals(n: int)
    ensures Decimal(0) == "0" && (n > 0 ==> Decimal(n) == Digits(n)) && Digits(0) == ""
  {
  }

  /** itoa: digits are put in front one at a time; a negative number has none. */
  method Itoa(n: int) returns (s: string)
    ensures n >= 0 ==> s == Decimal(n) && Value(s) == n
    ensures n < 0 ==> s == ""
  {
    hide Value, Decimal;
    SmallDecimals(n);
    if n == 0 {
      ValueOfDecimal(0);
      return "0";
    }
    s := "";
    var left := n;
    while left > 0
      invariant n < 0 ==> left == n && s == ""
      invariant n > 0 ==> left >= 0 && Digits(left) + s == Digits(n)
    {
      s := [DigitChar(left % 10)] + s;
      left := left / 10;
    }
    if n > 0 {
      ValueOfDecimal(n);
    }
  }
}
