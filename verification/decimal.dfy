/** Decimal text for ints: String.valueOf(int), which names a backup entity
    after its call id, and Integer.parseInt, which turns a phone account id
    into a subscription id. */
module Decimal {
  import opened Wire

  const MINUS: byte := 45  // '-'
  const PLUS: byte := 43   // '+'
  const ZERO: byte := 48   // '0'

  predicate IsDigit(b: byte) {
    ZERO <= b <= ZERO + 9
  }

  predicate AllDigits(t: Text) {
    forall i :: 0 <= i < |t| ==> IsDigit(t[i])
  }

  /** The decimal digits of n, without leading zeros. */
  function Digits(n: nat): (t: Text)
    ensures |t| >= 1 && AllDigits(t)
    ensures |t| > 1 ==> t[0] != ZERO
  {
    if n < 10 then [ZERO + n] else Digits(n / 10) + [ZERO + n % 10]
  }

  /** The number a string of decimal digits denotes. */
  function DigitsValue(t: Text): nat
    requires AllDigits(t)
  {
    if t == [] then 0 else DigitsValue(t[..|t| - 1]) * 10 + (t[|t| - 1] - ZERO)
  }

  /** String.valueOf(int). */
  function DecimalString(n: int): Text {
    if n < 0 then [MINUS] + Digits(-n) else Digits(n)
  }

  /** Integer.parseInt: an optional sign, then one or more decimal digits,
      denoting a value in the int range; None where Java throws
      NumberFormatException (and for a null string). */
  function ParseInt(t: Text): Option<int32> {
    if |t| == 0 then None
    else
      var signed := t[0] == MINUS || t[0] == PLUS;
      var digits := if signed then t[1..] else t;
      if |digits| == 0 || !AllDigits(digits) then None
      else
        var magnitude: int := DigitsValue(digits);
        var v: int := if t[0] == MINUS then -magnitude else magnitude;
        if -0x8000_0000 <= v < 0x8000_0000 then Some(v) else None
  }

  lemma {:induction false} DigitsValueOfDigits(n: nat)
    ensures DigitsValue(Digits(n)) == n
  {
    if n >= 10 {
      var t := Digits(n);
      assert t[..|t| - 1] == Digits(n / 10);
      DigitsValueOfDigits(n / 10);
    }
  }

  /** Integer.parseInt(String.valueOf(n)) == n. */
  lemma ParseIntOfDecimalString(n: int32)
    ensures ParseInt(DecimalString(n)) == Some(n)
  {
    var t := DecimalString(n);
    if n < 0 {
      assert t[1..] == Digits(-(n as int));
      DigitsValueOfDigits(-(n as int));
    } else {
      assert IsDigit(t[0]);
      DigitsValueOfDigits(n);
    }
  }

  /** Distinct ids give distinct entity keys. */
  lemma DecimalStringInjective(a: int32, b: int32)
    ensures DecimalString(a) == DecimalString(b) <==> a == b
  {
    ParseIntOfDecimalString(a);
    ParseIntOfDecimalString(b);
  }
}
