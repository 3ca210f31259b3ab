/**
 * Text rendering of the numbers that go into a report row: the decimal form
 * of a count, the two-decimal form of a percentage (`toFixed(2)`), and the
 * stand-in used for a timestamp label.
 */
module Format {

  predicate IsDigit(c: char) {
    '0' <= c <= '9'
  }

  predicate AllDigits(s: string) {
    forall k :: 0 <= k < |s| ==> IsDigit(s[k])
  }

  function DigitChar(d: nat): (c: char)
    requires d < 10
    ensures IsDigit(c) && c as int - '0' as int == d
  {
    ('0' as int + d) as char
  }

  /** Decimal representation of a natural number, most significant digit first, no leading zeros. */
  function NatToString(n: nat): (s: string)
    ensures s != [] && AllDigits(s)
    ensures n > 0 ==> s[0] != '0'
    decreases n
  {
    if n < 10 then [DigitChar(n)] else NatToString(n / 10) + [DigitChar(n % 10)]
  }

  /** The number a string of decimal digits denotes. */
  function DigitsValue(s: string): nat
    requires AllDigits(s)
    decreases |s|
  {
    if s == [] then 0 else DigitsValue(s[..|s| - 1]) * 10 + (s[|s| - 1] as int - '0' as int)
  }

  lemma {:induction false} NatToStringRoundTrip(n: nat)
    ensures DigitsValue(NatToString(n)) == n
    decreases n
  {
    if n >= 10 {
      NatToStringRoundTrip(n / 10);
      var s := NatToString(n);
      assert s[..|s| - 1] == NatToString(n / 10);
    }
  }

  /** Decimal representation of an integer, with a leading '-' when negative. */
  function IntToString(i: int): (s: string)
    ensures s != [] && '\t' !in s
    ensures i >= 0 ==> s == NatToString(i)
    ensures i < 0 ==> s[0] == '-' && s[1..] == NatToString(-i)
  {
    if i < 0 then "-" + NatToString(-i) else NatToString(i)
  }

  /**
   * count/total*100 to two decimals, as a whole number of hundredths: the
   * nearest one, rounding a tie upwards.
   */
  function Hundredths(count: nat, total: nat): (h: nat)
    requires total > 0
    ensures 2 * total * h <= 20000 * count + total < 2 * total * (h + 1)
  {
    var a, b := 20000 * count + total, 2 * total;
    var h := a / b;
    assert a == b * h + a % b && 0 <= a % b < b;
    h
  }

  /** A number of hundredths written with a point and exactly two fractional digits. */
  function HundredthsText(h: nat): (s: string)
    ensures |s| >= 4 && s[|s| - 3] == '.' && '\t' !in s
    ensures AllDigits(s[..|s| - 3]) && AllDigits(s[|s| - 2..])
  {
    var whole := NatToString(h / 100);
    var frac := TwoDigits(h % 100);
    var s := whole + "." + frac;
    assert s[..|s| - 3] == whole && s[|s| - 2..] == frac;
    s
  }

  function TwoDigits(x: nat): (s: string)
    requires x < 100
    ensures |s| == 2 && AllDigits(s) && DigitsValue(s) == x
  {
    var s := [DigitChar(x / 10), DigitChar(x % 10)];
    assert s[..1] == [DigitChar(x / 10)] && [DigitChar(x / 10)][..0] == [];
    assert DigitsValue(s[..1]) == x / 10;
    assert x == x / 10 * 10 + x % 10;
    s
  }

  /** `(count / total * 100).toFixed(2)`: whole part, a point, two fractional digits. */
  function Fixed2(count: nat, total: nat): (s: string)
    requires total > 0
    ensures |s| >= 4 && s[|s| - 3] == '.' && '\t' !in s
    ensures AllDigits(s[..|s| - 3]) && AllDigits(s[|s| - 2..])
    ensures DigitsValue(s[..|s| - 3]) * 100 + DigitsValue(s[|s| - 2..]) == Hundredths(count, total)
  {
    HundredthsTextRoundTrip(Hundredths(count, total));
    HundredthsText(Hundredths(count, total))
  }

  /** Reading the text of a number of hundredths back gives that number. */
  lemma HundredthsTextRoundTrip(h: nat)
    ensures var s := HundredthsText(h);
            DigitsValue(s[..|s| - 3]) * 100 + DigitsValue(s[|s| - 2..]) == h
  {
    var s := HundredthsText(h);
    assert s[..|s| - 3] == NatToString(h / 100);
    assert s[|s| - 2..] == TwoDigits(h % 100);
    NatToStringRoundTrip(h / 100);
  }
}
