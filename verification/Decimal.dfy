/** Decimal numbers as text: what printing an unsigned integer writes and what parsing one accepts. */
module Decimal {
  import opened Common
  import opened Numerals

  function DecimalText(n: nat): (t: string)
  {
    if n == 0 then "0" else
      var ds := Digits(10, n);
      seq(|ds|, i requires 0 <= i < |ds| => (48 + ds[i]) as char)
  }

  predicate AllDigits(t: string) {
    forall i | 0 <= i < |t| :: '0' <= t[i] <= '9'
  }

  function DigitValues(t: string): (ds: seq<nat>)
    requires AllDigits(t)
    ensures |ds| == |t| && AllBelow(10, ds)
  {
    seq(|t|, i requires 0 <= i < |t| => t[i] as int - 48)
  }

  function DecimalValue(t: string): nat
    requires AllDigits(t)
  {
    Value(10, DigitValues(t))
  }

  lemma DecimalRoundTrip(n: nat)
    ensures AllDigits(DecimalText(n)) && DecimalText(n) != ""
    ensures DecimalValue(DecimalText(n)) == n
    ensures |DecimalText(n)| > 1 ==> DecimalText(n)[0] != '0'
  {
    var t := DecimalText(n);
    if n == 0 {
      assert DigitValues(t) == [0];
      ValueSingle(10, 0);
    } else {
      DigitsLeading(10, n);
      ValueDigits(10, n);
      assert DigitValues(t) == Digits(10, n);
    }
  }

  /** Parsing an unsigned integer no greater than max: an optional plus sign and at least one digit. */
  function ParseUnsigned(t: string, max: nat): (r: Option<nat>)
    ensures r.Some? ==> r.value <= max
  {
    var digits := if t != "" && t[0] == '+' then t[1..] else t;
    if digits == "" || !AllDigits(digits) || DecimalValue(digits) > max then None else Some(DecimalValue(digits))
  }

  /** Exactly what parses: digits, at least one, after an optional plus sign, of a value within the range. */
  lemma ParsesIff(t: string, max: nat, n: nat)
    ensures ParseUnsigned(t, max) == Some(n) <==>
              n <= max && ((t != "" && AllDigits(t) && DecimalValue(t) == n)
                           || (|t| > 1 && t[0] == '+' && AllDigits(t[1..]) && DecimalValue(t[1..]) == n))
  {
    hide DecimalValue;
  }

  lemma ParsePrinted(n: nat, max: nat)
    ensures ParseUnsigned(DecimalText(n), max) == if n <= max then Some(n) else None
  {
    hide DecimalText, DecimalValue;
    DecimalRoundTrip(n);
  }
}
