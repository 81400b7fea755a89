/** Printing integers in decimal and scanning them back, as the store does. */
module Decimals {
  import opened Wrappers
  import opened Integers

  function DigitChar(d: int): char
    requires 0 <= d < 10
  {
    (('0' as int) + d) as char
  }

  predicate IsDigit(ch: char) {
    '0' <= ch <= '9'
  }

  function Digits(n: nat): string {
    if n < 10 then [DigitChar(n)] else Digits(n / 10) + [DigitChar(n % 10)]
  }

  function Decimal(n: int): string {
    if n < 0 then "-" + Digits(-n) else Digits(n)
  }

  /** The length of the leading run of digits. */
  function DigitRun(s: string): nat {
    if |s| > 0 && IsDigit(s[0]) then 1 + DigitRun(s[1..]) else 0
  }

  predicate AllDigits(s: string) {
    forall i :: 0 <= i < |s| ==> IsDigit(s[i])
  }

  function DigitsValue(s: string): nat
    requires AllDigits(s)
  {
    if |s| == 0 then 0 else 10 * DigitsValue(s[..|s| - 1]) + (s[|s| - 1] as int - '0' as int)
  }

  lemma {:induction false} DigitRunIsDigits(s: string)
    ensures DigitRun(s) <= |s| && AllDigits(s[..DigitRun(s)])
  {
    if |s| == 0 || !IsDigit(s[0]) {
    } else {
      DigitRunIsDigits(s[1..]);
      assert forall i :: 1 <= i < DigitRun(s) ==> s[..DigitRun(s)][i] == s[1..][..DigitRun(s[1..])][i - 1];
    }
  }

  lemma {:induction false} AllDigitsRun(s: string)
    requires AllDigits(s)
    ensures DigitRun(s) == |s|
  {
    if |s| == 0 {
    } else {
      AllDigitsRun(s[1..]);
    }
  }

  /** An optional sign and the digits after it; anything behind the digits is left unread. */
  function Scan(s: string): Option<int64> {
    var signed := |s| > 0 && (s[0] == '-' || s[0] == '+');
    var body := if signed then s[1..] else s;
    var n := DigitRun(body);
    DigitRunIsDigits(body);
    if n == 0 then None else
    var magnitude := DigitsValue(body[..n]);
    var value: int := if signed && s[0] == '-' then 0 - magnitude else magnitude;
    if Fits(value) then Some(value) else None
  }

  lemma {:induction false} DigitsScan(n: nat)
    ensures |Digits(n)| > 0 && AllDigits(Digits(n)) && DigitsValue(Digits(n)) == n
  {
    if n < 10 {
      assert Digits(n)[..0] == "";
    } else {
      DigitsScan(n / 10);
      assert Digits(n)[..|Digits(n)| - 1] == Digits(n / 10);
    }
  }

  /** Scanning undoes printing. */
  lemma ScanDecimal(n: int64)
    ensures Scan(Decimal(n)) == Some(n)
  {
    var magnitude: nat := if n < 0 then 0 - n else n;
    var d := Digits(magnitude);
    DigitsScan(magnitude);
    AllDigitsRun(d);
    assert d[..|d|] == d;
    if n < 0 {
      assert Decimal(n)[1..] == d;
    } else {
      assert IsDigit(d[0]);
    }
  }
}
